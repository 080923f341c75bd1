/** The back office of hotel_management_system/utils/admin_utils.py: stock
    levels, supply orders, the room catalogue, staff records and the
    dashboard counters. */
module BackOffice {
  import opened Wrappers
  import opened Tables
  import Reservations

  // ---------------------------------------------------------------------------
  // Inventory
  // ---------------------------------------------------------------------------

  /** The first inventory row with the id. */
  function ItemById(inventory: seq<InventoryItem>, id: int): Option<InventoryItem>
  {
    First(inventory, (x: InventoryItem) => x.id == id)
  }

  /** The new stock level: the change applied, but never below zero. */
  function AdjustStock(current: int, change: int): (q: int)
    ensures q >= 0
    ensures current + change >= 0 ==> q == current + change
    ensures current + change < 0 ==> q == 0
  {
    if current + change < 0 then 0 else current + change
  }

  /** UPDATE inventory SET quantity = ? WHERE id = ?. */
  function SetQuantity(inventory: seq<InventoryItem>, id: int, quantity: int): (r: seq<InventoryItem>)
    ensures |r| == |inventory| && ItemIds(r) == ItemIds(inventory)
    ensures forall k :: 0 <= k < |inventory| ==>
      r[k] == if inventory[k].id == id then inventory[k].(quantity := quantity) else inventory[k]
  {
    seq(|inventory|, k requires 0 <= k < |inventory| =>
      if inventory[k].id == id then inventory[k].(quantity := quantity) else inventory[k])
  }

  predicate StockNonNegative(inventory: seq<InventoryItem>) {
    forall k :: 0 <= k < |inventory| ==> inventory[k].quantity >= 0
  }

  /** The inventory after update_inventory_quantity: unchanged for an unknown item. */
  function AdjustedInventory(inventory: seq<InventoryItem>, id: int, change: int): (r: seq<InventoryItem>)
    ensures |r| == |inventory| && ItemIds(r) == ItemIds(inventory)
  {
    match ItemById(inventory, id)
    case None => inventory
    case Some(item) => SetQuantity(inventory, id, AdjustStock(item.quantity, change))
  }

  /** Adjusting stock keeps every level non-negative, and on a table with a
      primary key sets the item's level to the clamped sum and leaves every
      other item alone. */
  lemma AdjustedInventoryFacts(inventory: seq<InventoryItem>, id: int, change: int)
    requires IsKey(ItemIds(inventory))
    ensures StockNonNegative(inventory) ==> StockNonNegative(AdjustedInventory(inventory, id, change))
    ensures forall k :: 0 <= k < |inventory| ==>
      AdjustedInventory(inventory, id, change)[k].quantity ==
        if inventory[k].id == id then AdjustStock(inventory[k].quantity, change) else inventory[k].quantity
  {
    var found := ItemById(inventory, id);
    if found.Some? {
      var j :| 0 <= j < |inventory| && inventory[j] == found.value;
      forall k | 0 <= k < |inventory| && inventory[k].id == id ensures inventory[k] == found.value {
        assert ItemIds(inventory)[k] == ItemIds(inventory)[j];
      }
    }
  }

  /** update_inventory_quantity: False for an unknown item; otherwise set the
      level to the clamped sum and report success. */
  method UpdateInventoryQuantity(db: Database, itemId: int, change: int) returns (ok: bool)
    requires db.Valid()
    modifies db`inventory
    ensures db.Valid()
    ensures ok <==> ItemById(old(db.inventory), itemId).Some?
    ensures db.inventory == AdjustedInventory(old(db.inventory), itemId, change)
  {
    var current := ItemById(db.inventory, itemId);
    if current.None? {
      return false;
    }
    var quantity := AdjustStock(current.value.quantity, change);
    db.inventory := SetQuantity(db.inventory, itemId, quantity);
    return true;
  }

  /** The first inventory row with the name. */
  function ItemByName(inventory: seq<InventoryItem>, name: string): Option<InventoryItem>
  {
    First(inventory, (x: InventoryItem) => x.name == name)
  }

  predicate UniqueItemNames(inventory: seq<InventoryItem>) {
    forall i, j :: 0 <= i < j < |inventory| ==> inventory[i].name != inventory[j].name
  }

  /** The id add_inventory_item returns: the stocked item's, or the next rowid. */
  function AddedItemId(inventory: seq<InventoryItem>, name: string): int {
    match ItemByName(inventory, name)
    case Some(item) => item.id
    case None => FreshId(ItemIds(inventory))
  }

  /** The inventory after add_inventory_item: the quantity is added to an item
      already stocked under the name (with no floor), or a new row is appended. */
  function AddedInventory(inventory: seq<InventoryItem>, name: string, quantity: int, category: string): (r: seq<InventoryItem>)
    ensures IsKey(ItemIds(inventory)) ==> IsKey(ItemIds(r))
  {
    match ItemByName(inventory, name)
    case Some(item) => SetQuantity(inventory, item.id, item.quantity + quantity)
    case None =>
      var item := InventoryItem(FreshId(ItemIds(inventory)), name, quantity, category);
      assert IsKey(ItemIds(inventory)) ==> IsKey(ItemIds(inventory + [item])) by {
        if IsKey(ItemIds(inventory)) {
          FreshIdKeepsKey(ItemIds(inventory));
          assert ItemIds(inventory + [item]) == ItemIds(inventory) + [item.id];
        }
      }
      inventory + [item]
  }

  /** Adding under a name keeps names unique, and the name then denotes the
      returned id, so adding again under it reaches the same row. */
  lemma AddedInventoryFacts(inventory: seq<InventoryItem>, name: string, quantity: int, category: string)
    ensures UniqueItemNames(inventory) ==> UniqueItemNames(AddedInventory(inventory, name, quantity, category))
    ensures var found := ItemByName(AddedInventory(inventory, name, quantity, category), name);
      found.Some? && found.value.id == AddedItemId(inventory, name)
  {
    var after := AddedInventory(inventory, name, quantity, category);
    var existing := ItemByName(inventory, name);
    if existing.Some? {
      var item := existing.value;
      assert after == SetQuantity(inventory, item.id, item.quantity + quantity);
      assert AddedItemId(inventory, name) == item.id;
      RestockedFacts(inventory, name, item, item.quantity + quantity);
    } else {
      var item := InventoryItem(FreshId(ItemIds(inventory)), name, quantity, category);
      assert after == inventory + [item];
      assert AddedItemId(inventory, name) == item.id;
      ItemByNameAppend(inventory, item);
    }
  }

  /** The case of an item already stocked under the name. */
  lemma RestockedFacts(inventory: seq<InventoryItem>, name: string, item: InventoryItem, quantity: int)
    requires ItemByName(inventory, name) == Some(item)
    ensures UniqueItemNames(inventory) ==> UniqueItemNames(SetQuantity(inventory, item.id, quantity))
    ensures ItemByName(SetQuantity(inventory, item.id, quantity), name).Some?
    ensures ItemByName(SetQuantity(inventory, item.id, quantity), name).value.id == item.id
  {
    var after := SetQuantity(inventory, item.id, quantity);
    SetQuantityKeepsNames(inventory, item.id, quantity);
    ItemByNameSameNames(after, inventory, name);
  }

  /** add_inventory_item. */
  method AddInventoryItem(db: Database, name: string, quantity: int, category: string) returns (id: int)
    requires db.Valid()
    modifies db`inventory
    ensures db.Valid()
    ensures id == AddedItemId(old(db.inventory), name)
    ensures db.inventory == AddedInventory(old(db.inventory), name, quantity, category)
  {
    var before := db.inventory;
    var existing := ItemByName(before, name);
    var after;
    if existing.Some? {
      id := existing.value.id;
      after := SetQuantity(before, id, existing.value.quantity + quantity);
    } else {
      id := FreshId(ItemIds(before));
      after := before + [InventoryItem(id, name, quantity, category)];
    }
    assert after == AddedInventory(before, name, quantity, category);
    assert IsKey(ItemIds(after));
    db.inventory := after;
  }

  lemma SetQuantityKeepsNames(inventory: seq<InventoryItem>, id: int, quantity: int)
    ensures forall k :: 0 <= k < |inventory| ==> SetQuantity(inventory, id, quantity)[k].name == inventory[k].name
  {
  }

  /** The lookup by name sees only names and ids: two tables that agree on
      them row by row find a row with the same id. */
  lemma {:induction false} ItemByNameSameNames(a: seq<InventoryItem>, b: seq<InventoryItem>, name: string)
    requires |a| == |b|
    requires forall k :: 0 <= k < |a| ==> a[k].name == b[k].name && a[k].id == b[k].id
    ensures ItemByName(a, name).Some? <==> ItemByName(b, name).Some?
    ensures ItemByName(a, name).Some? ==> ItemByName(a, name).value.id == ItemByName(b, name).value.id
  {
    if a != [] && a[0].name != name {
      ItemByNameSameNames(a[1..], b[1..], name);
    }
  }

  lemma {:induction false} ItemByNameAppend(inventory: seq<InventoryItem>, item: InventoryItem)
    requires ItemByName(inventory, item.name).None?
    ensures ItemByName(inventory + [item], item.name) == Some(item)
    ensures UniqueItemNames(inventory) ==> UniqueItemNames(inventory + [item])
  {
    if inventory != [] {
      assert (inventory + [item])[1..] == inventory[1..] + [item];
      assert ItemByName(inventory[1..], item.name).None? by {
        forall k | 0 <= k < |inventory[1..]| ensures inventory[1..][k].name != item.name {
          assert inventory[1..][k] == inventory[k + 1];
        }
      }
      ItemByNameAppend(inventory[1..], item);
    }
    var ext := inventory + [item];
    if UniqueItemNames(inventory) {
      forall i, j | 0 <= i < j < |ext| ensures ext[i].name != ext[j].name {
        if j < |inventory| {
          assert ext[i] == inventory[i] && ext[j] == inventory[j];
        } else {
          assert ext[i] == inventory[i];
        }
      }
    }
  }

  // ---------------------------------------------------------------------------
  // Supply orders
  // ---------------------------------------------------------------------------

  /** The first order row with the id. */
  function OrderById(orders: seq<SupplyOrder>, id: int): Option<SupplyOrder>
  {
    First(orders, (o: SupplyOrder) => o.id == id)
  }

  /** UPDATE orders SET status = ? WHERE id = ?. */
  function SetOrderStatus(orders: seq<SupplyOrder>, id: int, status: string): (r: seq<SupplyOrder>)
    ensures |r| == |orders| && OrderIds(r) == OrderIds(orders)
  {
    seq(|orders|, k requires 0 <= k < |orders| =>
      if orders[k].id == id then orders[k].(status := status) else orders[k])
  }

  /** The stock after an order gets the status: a received order's quantity
      goes into stock, every time. */
  function StockAfterStatus(inventory: seq<InventoryItem>, orders: seq<SupplyOrder>, id: int, status: string): (r: seq<InventoryItem>)
    ensures ItemIds(r) == ItemIds(inventory)
  {
    if status == "received" && OrderById(orders, id).Some? then
      var o := OrderById(orders, id).value;
      AdjustedInventory(inventory, o.itemId, o.quantity)
    else inventory
  }

  /** update_order_status: marking an order received first adds its quantity
      to the item's stock; the result is whether the order exists. */
  method UpdateOrderStatus(db: Database, orderId: int, status: string) returns (ok: bool)
    requires db.Valid()
    modifies db`orders, db`inventory
    ensures db.Valid()
    ensures ok <==> OrderById(old(db.orders), orderId).Some?
    ensures db.inventory == StockAfterStatus(old(db.inventory), old(db.orders), orderId, status)
    ensures db.orders == SetOrderStatus(old(db.orders), orderId, status)
  {
    if status == "received" {
      var order := OrderById(db.orders, orderId);
      if order.Some? {
        var _ := UpdateInventoryQuantity(db, order.value.itemId, order.value.quantity);
      }
    }
    ok := OrderById(db.orders, orderId).Some?;
    db.orders := SetOrderStatus(db.orders, orderId, status);
  }

  /** Setting an order's status leaves its item and quantity as they were. */
  lemma {:induction false} OrderByIdAfterStatus(orders: seq<SupplyOrder>, id: int, status: string)
    requires OrderById(orders, id).Some?
    ensures OrderById(SetOrderStatus(orders, id, status), id) == Some(OrderById(orders, id).value.(status := status))
  {
    if orders[0].id != id {
      assert SetOrderStatus(orders, id, status)[1..] == SetOrderStatus(orders[1..], id, status);
      OrderByIdAfterStatus(orders[1..], id, status);
    }
  }

  /** Nothing stops an order from being received twice: with stock that was
      non-negative and a positive order quantity, each receipt adds the
      quantity again. */
  lemma ReceivingTwiceCountsTwice(inventory: seq<InventoryItem>, orders: seq<SupplyOrder>, orderId: int, k: nat)
    requires IsKey(ItemIds(inventory))
    requires OrderById(orders, orderId).Some?
    requires var o := OrderById(orders, orderId).value; k < |inventory| && inventory[k].id == o.itemId && o.quantity > 0
    requires inventory[k].quantity >= 0
    ensures var once := StockAfterStatus(inventory, orders, orderId, "received");
      var twice := StockAfterStatus(once, SetOrderStatus(orders, orderId, "received"), orderId, "received");
      twice[k].quantity == inventory[k].quantity + 2 * OrderById(orders, orderId).value.quantity
  {
    var o := OrderById(orders, orderId).value;
    OrderByIdAfterStatus(orders, orderId, "received");
    var once := AdjustedInventory(inventory, o.itemId, o.quantity);
    assert StockAfterStatus(inventory, orders, orderId, "received") == once;
    assert StockAfterStatus(once, SetOrderStatus(orders, orderId, "received"), orderId, "received") ==
      AdjustedInventory(once, o.itemId, o.quantity);
    AdjustedInventoryFacts(inventory, o.itemId, o.quantity);
    assert once[k].quantity == inventory[k].quantity + o.quantity;
    AdjustedInventoryFacts(once, o.itemId, o.quantity);
  }

  // ---------------------------------------------------------------------------
  // Rooms
  // ---------------------------------------------------------------------------

  predicate HasRoomNumber(rooms: seq<Room>, number: string) {
    exists k :: 0 <= k < |rooms| && rooms[k].number == number
  }

  predicate UniqueRoomNumbers(rooms: seq<Room>) {
    forall i, j :: 0 <= i < j < |rooms| ==> rooms[i].number != rooms[j].number
  }

  /** add_room: refuse a number already in use; otherwise insert the room as
      available. Room numbers stay unique. */
  method AddRoom(db: Database, number: string, kind: string, price: int, capacity: int) returns (r: Option<int>)
    requires db.Valid()
    modifies db`rooms
    ensures db.Valid()
    ensures UniqueRoomNumbers(old(db.rooms)) ==> UniqueRoomNumbers(db.rooms)
    ensures HasRoomNumber(old(db.rooms), number) ==> r == None && db.rooms == old(db.rooms)
    ensures !HasRoomNumber(old(db.rooms), number) ==>
      r == Some(FreshId(RoomIds(old(db.rooms)))) &&
      db.rooms == old(db.rooms) + [Room(r.value, number, kind, price, capacity, Available)]
  {
    if HasRoomNumber(db.rooms, number) {
      return None;
    }
    var id := FreshId(RoomIds(db.rooms));
    var room := Room(id, number, kind, price, capacity, Available);
    FreshIdKeepsKey(RoomIds(db.rooms));
    assert RoomIds(db.rooms + [room]) == RoomIds(db.rooms) + [id];
    var ext := db.rooms + [room];
    if UniqueRoomNumbers(db.rooms) {
      forall i, j | 0 <= i < j < |ext| ensures ext[i].number != ext[j].number {
        if j < |db.rooms| {
          assert ext[i] == db.rooms[i] && ext[j] == db.rooms[j];
        } else {
          assert ext[i] == db.rooms[i];
        }
      }
    }
    db.rooms := ext;
    return Some(id);
  }

  // ---------------------------------------------------------------------------
  // Employees
  // ---------------------------------------------------------------------------

  predicate HasAssignment(tasks: seq<HousekeepingTask>, employeeId: int) {
    exists k :: 0 <= k < |tasks| && tasks[k].employeeId == employeeId
  }

  predicate HasEmployee(employees: seq<Employee>, id: int) {
    exists k :: 0 <= k < |employees| && employees[k].id == id
  }

  /** DELETE FROM employees WHERE id = ?. */
  function RemoveEmployee(employees: seq<Employee>, id: int): (r: seq<Employee>)
    ensures |r| <= |employees|
    ensures forall e :: e in r <==> e in employees && e.id != id
  {
    if employees == [] then []
    else
      var init := employees[..|employees| - 1];
      var last := employees[|employees| - 1];
      assert employees == init + [last];
      RemoveEmployee(init, id) + (if last.id == id then [] else [last])
  }

  /** Every housekeeping task names an employee on the staff. */
  predicate TasksReferenceStaff(tasks: seq<HousekeepingTask>, employees: seq<Employee>) {
    forall k :: 0 <= k < |tasks| ==> HasEmployee(employees, tasks[k].employeeId)
  }

  /** An employee with a positive id absent from a keyed table extends it to
      a keyed table. */
  lemma KeyAppend(rest: seq<Employee>, last: Employee)
    requires IsKey(EmployeeIds(rest)) && last.id >= 1
    requires forall k :: 0 <= k < |rest| ==> rest[k].id != last.id
    ensures IsKey(EmployeeIds(rest + [last]))
  {
    var ext := rest + [last];
    assert forall i :: 0 <= i < |rest| ==> ext[i] == rest[i];
  }

  /** A keyed table without its last row is still keyed, and that last row's
      id is positive and differs from every other. */
  lemma KeyInit(employees: seq<Employee>)
    requires IsKey(EmployeeIds(employees)) && employees != []
    ensures IsKey(EmployeeIds(employees[..|employees| - 1]))
    ensures employees[|employees| - 1].id >= 1
    ensures forall k :: 0 <= k < |employees| - 1 ==> employees[k].id != employees[|employees| - 1].id
  {
    var ids := EmployeeIds(employees);
    assert ids[|employees| - 1] == employees[|employees| - 1].id;
  }

  /** An employee id absent from the table is absent after a removal. */
  lemma RemoveEmployeeAbsent(employees: seq<Employee>, id: int, x: int)
    requires forall k :: 0 <= k < |employees| ==> employees[k].id != x
    ensures forall k :: 0 <= k < |RemoveEmployee(employees, id)| ==> RemoveEmployee(employees, id)[k].id != x
  {
    var rest := RemoveEmployee(employees, id);
    forall k | 0 <= k < |rest| ensures rest[k].id != x {
      assert rest[k] in employees;
    }
  }

  /** Removing employees keeps the id column a key. */
  lemma {:induction false} RemoveEmployeeKeepsKey(employees: seq<Employee>, id: int)
    requires IsKey(EmployeeIds(employees))
    ensures IsKey(EmployeeIds(RemoveEmployee(employees, id)))
  {
    if employees != [] {
      var init := employees[..|employees| - 1];
      var last := employees[|employees| - 1];
      KeyInit(employees);
      RemoveEmployeeKeepsKey(init, id);
      var rest := RemoveEmployee(init, id);
      if last.id != id {
        RemoveEmployeeAbsent(init, id, last.id);
        KeyAppend(rest, last);
        assert RemoveEmployee(employees, id) == rest + [last];
      } else {
        assert RemoveEmployee(employees, id) == rest;
      }
    }
  }

  /** delete_employee: refuse while any housekeeping task is assigned to the
      employee; otherwise delete the row and report whether one existed. */
  method DeleteEmployee(db: Database, employeeId: int) returns (ok: bool)
    requires db.Valid()
    modifies db`employees
    ensures db.Valid()
    ensures HasAssignment(db.tasks, employeeId) ==> !ok && db.employees == old(db.employees)
    ensures !HasAssignment(db.tasks, employeeId) ==>
      (ok <==> HasEmployee(old(db.employees), employeeId)) && db.employees == RemoveEmployee(old(db.employees), employeeId)
    ensures TasksReferenceStaff(db.tasks, old(db.employees)) ==> TasksReferenceStaff(db.tasks, db.employees)
  {
    if HasAssignment(db.tasks, employeeId) {
      return false;
    }
    ok := HasEmployee(db.employees, employeeId);
    var before := db.employees;
    RemoveEmployeeKeepsKey(before, employeeId);
    db.employees := RemoveEmployee(before, employeeId);
    if TasksReferenceStaff(db.tasks, before) {
      forall k | 0 <= k < |db.tasks| ensures HasEmployee(db.employees, db.tasks[k].employeeId) {
        var m :| 0 <= m < |before| && before[m].id == db.tasks[k].employeeId;
        assert before[m] in db.employees;
        var n :| 0 <= n < |db.employees| && db.employees[n] == before[m];
      }
    }
  }

  // ---------------------------------------------------------------------------
  // Dashboard
  // ---------------------------------------------------------------------------

  function LiveBookingCount(bookings: seq<Booking>): (n: nat)
    ensures n <= |bookings|
  {
    if bookings == [] then 0
    else LiveBookingCount(bookings[..|bookings| - 1]) + (if bookings[|bookings| - 1].status != Cancelled then 1 else 0)
  }

  function PendingOrderCount(orders: seq<SupplyOrder>): (n: nat)
    ensures n <= |orders|
  {
    if orders == [] then 0
    else PendingOrderCount(orders[..|orders| - 1]) + (if orders[|orders| - 1].status == "pending" then 1 else 0)
  }

  function OccupiedRoomCount(rooms: seq<Room>): (n: nat)
    ensures n <= |rooms|
  {
    if rooms == [] then 0
    else OccupiedRoomCount(rooms[..|rooms| - 1]) + (if rooms[|rooms| - 1].status == Occupied then 1 else 0)
  }

  datatype Stats = Stats(
    guestCount: nat, employeeCount: nat, roomCount: nat, bookingCount: nat,
    inventoryCount: nat, pendingOrders: nat, occupancyRate: real)

  /** get_dashboard_stats: the table sizes, the bookings not cancelled, the
      pending orders, and the share of rooms marked occupied in percent
      (rounding to two decimals is not modelled). */
  function DashboardStats(db: Database): (s: Stats)
    reads db
    ensures s.bookingCount <= |db.bookings| && s.pendingOrders <= |db.orders|
    ensures 0.0 <= s.occupancyRate <= 100.0
    ensures s.occupancyRate == 0.0 <==> OccupiedRoomCount(db.rooms) == 0
    ensures s.occupancyRate == 100.0 <==> |db.rooms| > 0 && OccupiedRoomCount(db.rooms) == |db.rooms|
  {
    var total := |db.rooms|;
    var occupied := OccupiedRoomCount(db.rooms);
    Stats(|db.guests|, |db.employees|, total, LiveBookingCount(db.bookings), |db.inventory|,
          PendingOrderCount(db.orders), if total > 0 then occupied as real / total as real * 100.0 else 0.0)
  }

  /** A successful cancellation lowers the dashboard's booking count by one. */
  lemma {:induction false} CancellingLowersBookingCount(bookings: seq<Booking>, bookingId: int, guestId: int, k: nat)
    requires IsKey(BookingIds(bookings))
    requires k < |bookings| && Reservations.CancelTarget(bookings[k], bookingId, guestId) && bookings[k].status != Cancelled
    ensures LiveBookingCount(Reservations.CancelRows(bookings, bookingId, guestId)) == LiveBookingCount(bookings) - 1
  {
    var n := |bookings|;
    var init := bookings[..n - 1];
    var after := Reservations.CancelRows(bookings, bookingId, guestId);
    assert after[..n - 1] == Reservations.CancelRows(init, bookingId, guestId);
    assert IsKey(BookingIds(init)) by {
      assert forall i :: 0 <= i < |init| ==> BookingIds(init)[i] == BookingIds(bookings)[i];
    }
    if k == n - 1 {
      forall i | 0 <= i < |init| ensures !Reservations.CancelTarget(init[i], bookingId, guestId) {
        assert BookingIds(bookings)[i] != BookingIds(bookings)[k];
      }
      CancelRowsNoTarget(init, bookingId, guestId);
    } else {
      assert BookingIds(bookings)[k] != BookingIds(bookings)[n - 1];
      CancellingLowersBookingCount(init, bookingId, guestId, k);
    }
  }

  lemma {:induction false} CancelRowsNoTarget(bookings: seq<Booking>, bookingId: int, guestId: int)
    requires forall i :: 0 <= i < |bookings| ==> !Reservations.CancelTarget(bookings[i], bookingId, guestId)
    ensures Reservations.CancelRows(bookings, bookingId, guestId) == bookings
  {
  }
}
