/** The hotel's relational store, held as in-memory tables. Every row has an
    integer primary key `id`; a new row gets the next rowid, one more than the
    largest id in its table (1 in an empty table), as SQLite assigns it. Dates
    are day numbers; ISO `YYYY-MM-DD` strings, which the SQL compares as text,
    compare in the same order as these numbers. Money is in integer cents. */
module Tables {
  import opened Wrappers

  /** The length of a day in seconds; "now" is a count of seconds whose
      multiples of this constant are local midnights. */
  const SecondsPerDay := 86400

  datatype RoomStatus = Available | Occupied

  datatype BookingStatus = Pending | Confirmed | CheckedIn | CheckedOut | Cancelled

  datatype RequestStatus = RequestPending | RequestInProgress | RequestCompleted | RequestCancelled

  datatype Room = Room(id: int, number: string, kind: string, price: int, capacity: int, status: RoomStatus)

  datatype Booking = Booking(id: int, roomId: int, guestId: int, checkIn: int, checkOut: int, status: BookingStatus)

  datatype Guest = Guest(id: int, userId: int, name: string, phone: string, address: string)

  datatype ServiceRequest = ServiceRequest(id: int, bookingId: int, serviceType: string, notes: string, status: RequestStatus)

  datatype Employee = Employee(id: int, name: string, position: string, department: string, contact: string)

  datatype HousekeepingTask = HousekeepingTask(id: int, roomId: int, employeeId: int, date: int, status: string)

  datatype InventoryItem = InventoryItem(id: int, name: string, quantity: int, category: string)

  datatype SupplyOrder = SupplyOrder(id: int, itemId: int, quantity: int, status: string)

  /** The TypeError `sqlite3.Row` raises on item assignment: the rows that
      query_db returns are read-only. */
  datatype RowError = ReadOnlyRow

  /** `query_db(..., one=True)` over rows in table order: the first row that
      satisfies the WHERE clause `p`, or None when no row does. */
  function First<T(==)>(rows: seq<T>, p: T -> bool): (r: Option<T>)
    ensures r.Some? ==> r.value in rows && p(r.value)
    ensures r.Some? ==> exists k :: 0 <= k < |rows| && rows[k] == r.value && forall j :: 0 <= j < k ==> !p(rows[j])
    ensures r.None? <==> forall k :: 0 <= k < |rows| ==> !p(rows[k])
  {
    if rows == [] then None
    else if p(rows[0]) then Some(rows[0])
    else
      assert forall k :: 1 <= k < |rows| ==> rows[k] == rows[1..][k - 1];
      var r := First(rows[1..], p);
      if r.Some? then
        var k :| 0 <= k < |rows[1..]| && rows[1..][k] == r.value && forall j :: 0 <= j < k ==> !p(rows[1..][j]);
        assert rows[k + 1] == r.value;
        assert forall j :: 0 <= j < k + 1 ==> !p(rows[j]) by {
          forall j | 0 <= j < k + 1 ensures !p(rows[j]) {
            if j > 0 { assert rows[j] == rows[1..][j - 1]; }
          }
        }
        r
      else r
  }

  /** The largest id in a table, 0 for an empty one. */
  function MaxId(ids: seq<int>): (m: int)
    ensures m >= 0
    ensures forall i :: 0 <= i < |ids| ==> ids[i] <= m
    ensures ids == [] ==> m == 0
  {
    if ids == [] then 0
    else
      var m := MaxId(ids[1..]);
      assert forall i :: 1 <= i < |ids| ==> ids[i] == ids[1..][i - 1];
      if ids[0] >= m then ids[0] else m
  }

  /** The id SQLite gives the next inserted row: one more than the largest. */
  function FreshId(ids: seq<int>): (r: int)
    ensures r >= 1
    ensures forall i :: 0 <= i < |ids| ==> ids[i] < r
  {
    MaxId(ids) + 1
  }

  /** A column of primary keys: positive and pairwise distinct. */
  predicate IsKey(ids: seq<int>) {
    (forall i :: 0 <= i < |ids| ==> ids[i] >= 1) &&
    (forall i, j :: 0 <= i < j < |ids| ==> ids[i] != ids[j])
  }

  /** A fresh id appended to a key column keeps it a key. */
  lemma FreshIdKeepsKey(ids: seq<int>)
    requires IsKey(ids)
    ensures IsKey(ids + [FreshId(ids)])
  {
    var ext := ids + [FreshId(ids)];
    assert forall i :: 0 <= i < |ids| ==> ext[i] == ids[i];
  }

  /** A table's id column, row by row. */
  function Ids<T>(rows: seq<T>, id: T -> int): (r: seq<int>)
    ensures |r| == |rows| && forall i :: 0 <= i < |rows| ==> r[i] == id(rows[i])
  {
    seq(|rows|, i requires 0 <= i < |rows| => id(rows[i]))
  }

  function RoomIds(rs: seq<Room>): seq<int> {
    Ids(rs, (x: Room) => x.id)
  }

  function BookingIds(bs: seq<Booking>): seq<int> {
    Ids(bs, (x: Booking) => x.id)
  }

  function GuestIds(gs: seq<Guest>): seq<int> {
    Ids(gs, (x: Guest) => x.id)
  }

  function RequestIds(rs: seq<ServiceRequest>): seq<int> {
    Ids(rs, (x: ServiceRequest) => x.id)
  }

  function EmployeeIds(es: seq<Employee>): seq<int> {
    Ids(es, (x: Employee) => x.id)
  }

  function TaskIds(ts: seq<HousekeepingTask>): seq<int> {
    Ids(ts, (x: HousekeepingTask) => x.id)
  }

  function ItemIds(items: seq<InventoryItem>): seq<int> {
    Ids(items, (x: InventoryItem) => x.id)
  }

  function OrderIds(os: seq<SupplyOrder>): seq<int> {
    Ids(os, (x: SupplyOrder) => x.id)
  }

  /** The database: one sequence of rows per table, in rowid order. */
  class Database {
    var rooms: seq<Room>
    var bookings: seq<Booking>
    var guests: seq<Guest>
    var requests: seq<ServiceRequest>
    var employees: seq<Employee>
    var tasks: seq<HousekeepingTask>
    var inventory: seq<InventoryItem>
    var orders: seq<SupplyOrder>

    /** Every table's id column is a primary key. */
    ghost predicate Valid()
      reads this
    {
      IsKey(RoomIds(rooms)) && IsKey(BookingIds(bookings)) && IsKey(GuestIds(guests)) &&
      IsKey(RequestIds(requests)) && IsKey(EmployeeIds(employees)) && IsKey(TaskIds(tasks)) &&
      IsKey(ItemIds(inventory)) && IsKey(OrderIds(orders))
    }

    constructor ()
      ensures Valid()
      ensures rooms == [] && bookings == [] && guests == [] && requests == []
      ensures employees == [] && tasks == [] && inventory == [] && orders == []
    {
      rooms, bookings, guests, requests := [], [], [], [];
      employees, tasks, inventory, orders := [], [], [], [];
    }
  }
}
