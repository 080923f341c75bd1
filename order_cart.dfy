/** The food-order cart of the guest pages: the `orderItems` list and its
    click handlers in hotel_management_system/static/js/food.js, food_menu.js
    and user.js, which carry the same code. An entry is a menu item's id (the
    button's data-id text), name, price and quantity. */
module OrderCart {
  import opened Text
  import opened Wrappers

  datatype OrderItem = OrderItem(id: string, name: string, price: real, quantity: int)

  /** The invariant the handlers keep: one entry per id, each with a quantity
      of at least one. */
  predicate WellFormed(items: seq<OrderItem>) {
    (forall i, j :: 0 <= i < j < |items| ==> items[i].id != items[j].id) &&
    (forall i :: 0 <= i < |items| ==> items[i].quantity >= 1)
  }

  /** The index of the first entry with the id (what Array.prototype.find visits). */
  function FindIndex(items: seq<OrderItem>, id: string): (r: Option<nat>)
    ensures r.Some? ==>
      r.value < |items| && items[r.value].id == id && forall j :: 0 <= j < r.value ==> items[j].id != id
    ensures r.None? <==> forall j :: 0 <= j < |items| ==> items[j].id != id
  {
    if items == [] then None
    else if items[0].id == id then Some(0)
    else
      match FindIndex(items[1..], id)
      case None => None
      case Some(k) => Some(k + 1)
  }

  /** The quantity of the id in the cart, 0 when it is absent. */
  function Count(items: seq<OrderItem>, id: string): int {
    match FindIndex(items, id)
    case None => 0
    case Some(k) => items[k].quantity
  }

  lemma CountAt(items: seq<OrderItem>, j: nat)
    requires WellFormed(items) && j < |items|
    ensures Count(items, items[j].id) == items[j].quantity
  {
    var k := FindIndex(items, items[j].id).value;
  }

  lemma CountAbsent(items: seq<OrderItem>, id: string)
    requires forall j :: 0 <= j < |items| ==> items[j].id != id
    ensures Count(items, id) == 0
  {
  }

  /** The add-to-order click: one more of an id already in the cart, or a new
      entry with quantity 1 at the end. */
  function Added(items: seq<OrderItem>, id: string, name: string, price: real): seq<OrderItem> {
    match FindIndex(items, id)
    case Some(k) => items[k := items[k].(quantity := items[k].quantity + 1)]
    case None => items + [OrderItem(id, name, price, 1)]
  }

  /** The + button. */
  function Increased(items: seq<OrderItem>, index: nat): seq<OrderItem>
    requires index < |items|
  {
    items[index := items[index].(quantity := items[index].quantity + 1)]
  }

  /** The × button: splice(index, 1). */
  function Removed(items: seq<OrderItem>, index: nat): seq<OrderItem>
    requires index < |items|
  {
    items[..index] + items[index + 1..]
  }

  /** The - button: one fewer, and the entry goes when it was the last one. */
  function Decreased(items: seq<OrderItem>, index: nat): seq<OrderItem>
    requires index < |items|
  {
    if items[index].quantity > 1 then items[index := items[index].(quantity := items[index].quantity - 1)]
    else Removed(items, index)
  }

  /** Replacing an entry by one with the same id keeps the cart well formed
      when the new quantity is positive, and changes only that id's count. */
  lemma ReplaceSameId(items: seq<OrderItem>, index: nat, x: OrderItem)
    requires WellFormed(items) && index < |items|
    requires x.id == items[index].id && x.quantity >= 1
    ensures WellFormed(items[index := x])
    ensures Count(items[index := x], x.id) == x.quantity
    ensures forall id :: id != x.id ==> Count(items[index := x], id) == Count(items, id)
  {
    var after := items[index := x];
    CountAt(after, index);
    forall id | id != x.id ensures Count(after, id) == Count(items, id) {
      if j :| 0 <= j < |items| && items[j].id == id {
        CountAt(items, j);
        CountAt(after, j);
      } else {
        CountAbsent(items, id);
        CountAbsent(after, id);
      }
    }
  }

  /** Adding is one more of the id and nothing else; the cart stays well formed. */
  lemma AddedCounts(items: seq<OrderItem>, id: string, name: string, price: real)
    requires WellFormed(items)
    ensures WellFormed(Added(items, id, name, price))
    ensures Count(Added(items, id, name, price), id) == Count(items, id) + 1
    ensures forall other :: other != id ==> Count(Added(items, id, name, price), other) == Count(items, other)
  {
    match FindIndex(items, id)
    case Some(k) =>
      CountAt(items, k);
      ReplaceSameId(items, k, items[k].(quantity := items[k].quantity + 1));
    case None =>
      var after := items + [OrderItem(id, name, price, 1)];
      CountAt(after, |items|);
      CountAbsent(items, id);
      forall other | other != id ensures Count(after, other) == Count(items, other) {
        if j :| 0 <= j < |items| && items[j].id == other {
          CountAt(items, j);
          CountAt(after, j);
        } else {
          CountAbsent(after, other);
        }
      }
  }

  /** The + button is one more of its entry's id and nothing else. */
  lemma IncreasedCounts(items: seq<OrderItem>, index: nat)
    requires WellFormed(items) && index < |items|
    ensures WellFormed(Increased(items, index))
    ensures Count(Increased(items, index), items[index].id) == Count(items, items[index].id) + 1
    ensures forall id :: id != items[index].id ==> Count(Increased(items, index), id) == Count(items, id)
  {
    CountAt(items, index);
    ReplaceSameId(items, index, items[index].(quantity := items[index].quantity + 1));
  }

  /** Where each surviving entry lands after the × button. */
  lemma RemovedEntries(items: seq<OrderItem>, index: nat)
    requires index < |items|
    ensures |Removed(items, index)| == |items| - 1
    ensures forall j :: 0 <= j < index ==> Removed(items, index)[j] == items[j]
    ensures forall j :: index < j < |items| ==> Removed(items, index)[j - 1] == items[j]
  {
  }

  /** An id absent from the other entries is absent after the × button. */
  lemma RemovedLacks(items: seq<OrderItem>, index: nat, id: string)
    requires index < |items|
    requires forall j :: 0 <= j < |items| && j != index ==> items[j].id != id
    ensures Count(Removed(items, index), id) == 0
  {
    var after := Removed(items, index);
    RemovedEntries(items, index);
    forall j | 0 <= j < |after| ensures after[j].id != id {
      var j0 := if j < index then j else j + 1;
      assert after[j] == items[j0];
    }
    CountAbsent(after, id);
  }

  lemma RemovedWellFormed(items: seq<OrderItem>, index: nat)
    requires WellFormed(items) && index < |items|
    ensures WellFormed(Removed(items, index))
  {
    var after := Removed(items, index);
    RemovedEntries(items, index);
    forall i, j | 0 <= i < j < |after| ensures after[i].id != after[j].id {
      var i0 := if i < index then i else i + 1;
      var j0 := if j < index then j else j + 1;
      assert after[i] == items[i0] && after[j] == items[j0];
    }
    forall i | 0 <= i < |after| ensures after[i].quantity >= 1 {
      var i0 := if i < index then i else i + 1;
      assert after[i] == items[i0];
    }
  }

  /** The × button takes the id out of the cart and leaves every other id's
      quantity as it was. */
  lemma RemovedCounts(items: seq<OrderItem>, index: nat)
    requires WellFormed(items) && index < |items|
    ensures WellFormed(Removed(items, index))
    ensures Count(Removed(items, index), items[index].id) == 0
    ensures forall id :: id != items[index].id ==> Count(Removed(items, index), id) == Count(items, id)
  {
    var after := Removed(items, index);
    RemovedWellFormed(items, index);
    RemovedLacks(items, index, items[index].id);
    forall id | id != items[index].id ensures Count(after, id) == Count(items, id) {
      if j :| 0 <= j < |items| && items[j].id == id {
        CountAt(items, j);
        RemovedEntries(items, index);
        var j' := if j < index then j else j - 1;
        assert after[j'] == items[j];
        CountAt(after, j');
      } else {
        CountAbsent(items, id);
        RemovedLacks(items, index, id);
      }
    }
  }

  /** The × button keeps the other entries in their relative order. */
  lemma RemovedKeepsOrder(items: seq<OrderItem>, index: nat, i: nat, j: nat)
    requires index < |items| && i < j < |items| && i != index && j != index
    ensures exists i', j' :: 0 <= i' < j' < |Removed(items, index)| && Removed(items, index)[i'] == items[i] && Removed(items, index)[j'] == items[j]
  {
    RemovedEntries(items, index);
    var i' := if i < index then i else i - 1;
    var j' := if j < index then j else j - 1;
    assert Removed(items, index)[i'] == items[i] && Removed(items, index)[j'] == items[j];
  }

  /** The - button is one fewer of its entry's id, which leaves the cart at
      zero, and no other id changes. */
  lemma DecreasedCounts(items: seq<OrderItem>, index: nat)
    requires WellFormed(items) && index < |items|
    ensures WellFormed(Decreased(items, index))
    ensures Count(Decreased(items, index), items[index].id) == Count(items, items[index].id) - 1
    ensures forall id :: id != items[index].id ==> Count(Decreased(items, index), id) == Count(items, id)
  {
    CountAt(items, index);
    if items[index].quantity > 1 {
      ReplaceSameId(items, index, items[index].(quantity := items[index].quantity - 1));
    } else {
      RemovedCounts(items, index);
    }
  }

  /** What one entry adds to the order total. */
  function LineTotal(x: OrderItem): real {
    x.price * x.quantity as real
  }

  /** The order total: the sum of price × quantity over the entries. */
  function Total(items: seq<OrderItem>): real {
    if items == [] then 0.0 else Total(items[..|items| - 1]) + LineTotal(items[|items| - 1])
  }

  /** Replacing one entry changes the total by the difference of the two lines. */
  lemma {:induction false} TotalUpdate(items: seq<OrderItem>, k: nat, x: OrderItem)
    requires k < |items|
    ensures Total(items[k := x]) == Total(items) - LineTotal(items[k]) + LineTotal(x)
    decreases |items|
  {
    var n := |items| - 1;
    assert items[k := x][..n] == if k == n then items[..n] else items[..n][k := x];
    if k < n {
      TotalUpdate(items[..n], k, x);
    }
  }

  /** The total rises by the price of the entry that gained one unit: the
      price already in the cart, or the clicked price for a new entry. */
  lemma AddedTotal(items: seq<OrderItem>, id: string, name: string, price: real)
    ensures Total(Added(items, id, name, price)) ==
      Total(items) + match FindIndex(items, id) case Some(k) => items[k].price case None => price
  {
    match FindIndex(items, id)
    case Some(k) =>
      var x := items[k].(quantity := items[k].quantity + 1);
      assert Added(items, id, name, price) == items[k := x];
      IncrementTotal(items, k);
    case None =>
      var x := OrderItem(id, name, price, 1);
      assert Added(items, id, name, price) == items + [x];
      AppendTotal(items, x);
  }

  /** Incrementing one entry adds its price to the total. */
  lemma IncrementTotal(items: seq<OrderItem>, k: nat)
    requires k < |items|
    ensures Total(items[k := items[k].(quantity := items[k].quantity + 1)]) == Total(items) + items[k].price
  {
    TotalUpdate(items, k, items[k].(quantity := items[k].quantity + 1));
    LineTotalStep(items[k]);
  }

  /** Appending a single unit adds its price to the total. */
  lemma AppendTotal(items: seq<OrderItem>, x: OrderItem)
    requires x.quantity == 1
    ensures Total(items + [x]) == Total(items) + x.price
  {
    assert (items + [x])[..|items|] == items;
  }

  /** One more unit adds the unit price to the line. */
  lemma LineTotalStep(x: OrderItem)
    ensures LineTotal(x.(quantity := x.quantity + 1)) == LineTotal(x) + x.price
  {
    var q := x.quantity as real;
    assert (x.quantity + 1) as real == q + 1.0;
    assert x.price * (q + 1.0) == x.price * q + x.price;
  }

  // ---------------------------------------------------------------------------
  // The hidden order form
  // ---------------------------------------------------------------------------

  datatype FormField = FormField(name: string, value: string)

  /** `items[<index>][<key>]`. */
  function FieldName(index: nat, key: string): string {
    "items[" + NatToString(index) + "][" + key + "]"
  }

  /** The place-order loop: an id field and a quantity field per entry, in order. */
  method OrderFields(items: seq<OrderItem>) returns (fields: seq<FormField>)
    ensures |fields| == 2 * |items|
    ensures forall k :: 0 <= k < |items| ==>
      fields[2 * k] == FormField(FieldName(k, "menu_item_id"), items[k].id) &&
      fields[2 * k + 1] == FormField(FieldName(k, "quantity"), IntToString(items[k].quantity))
  {
    fields := [];
    var index := 0;
    while index < |items|
      invariant 0 <= index <= |items| && |fields| == 2 * index
      invariant forall k :: 0 <= k < index ==>
        fields[2 * k] == FormField(FieldName(k, "menu_item_id"), items[k].id) &&
        fields[2 * k + 1] == FormField(FieldName(k, "quantity"), IntToString(items[k].quantity))
    {
      var idField := FormField(FieldName(index, "menu_item_id"), items[index].id);
      var quantityField := FormField(FieldName(index, "quantity"), IntToString(items[index].quantity));
      fields := fields + [idField, quantityField];
      index := index + 1;
    }
  }

  /** Two field names are equal only for the same index and key: the digits
      end where the first `]` stands, and they parse back to the index. */
  lemma FieldNameInjective(k1: nat, k2: nat, key1: string, key2: string)
    requires FieldName(k1, key1) == FieldName(k2, key2)
    ensures k1 == k2 && key1 == key2
  {
    var a := NatToString(k1);
    var b := NatToString(k2);
    var s := FieldName(k1, key1);
    assert s == "items[" + a + "][" + key1 + "]";
    assert s == "items[" + b + "][" + key2 + "]";
    assert forall i :: 0 <= i < |a| ==> s[6 + i] == a[i];
    assert forall i :: 0 <= i < |b| ==> s[6 + i] == b[i];
    assert s[6 + |a|] == ']' && s[6 + |b|] == ']';
    if |a| < |b| {
      assert false;
    } else if |b| < |a| {
      assert false;
    }
    assert a == s[6..6 + |a|] == b;
    ParseNatToString(k1);
    ParseNatToString(k2);
    assert key1 == s[8 + |a|..|s| - 1] == key2;
  }

  /** The key of the field at a position: ids at even, quantities at odd ones. */
  function FieldKey(i: nat): string {
    if i % 2 == 0 then "menu_item_id" else "quantity"
  }

  /** The fields ordered as the place-order loop writes them. */
  predicate LaidOut(items: seq<OrderItem>, fields: seq<FormField>) {
    |fields| == 2 * |items| &&
    forall k :: 0 <= k < |items| ==>
      fields[2 * k] == FormField(FieldName(k, "menu_item_id"), items[k].id) &&
      fields[2 * k + 1] == FormField(FieldName(k, "quantity"), IntToString(items[k].quantity))
  }

  lemma FieldNameAt(items: seq<OrderItem>, fields: seq<FormField>, i: nat)
    requires LaidOut(items, fields) && i < |fields|
    ensures fields[i].name == FieldName(i / 2, FieldKey(i))
  {
    var k := i / 2;
    if i % 2 == 0 {
      assert i == 2 * k;
    } else {
      assert i == 2 * k + 1;
    }
  }

  /** The server can tell the fields apart and read the cart back: every
      name is distinct, and each quantity field parses to the entry's
      quantity. */
  lemma OrderFieldsReadBack(items: seq<OrderItem>, fields: seq<FormField>)
    requires WellFormed(items)
    requires LaidOut(items, fields)
    ensures forall i, j :: 0 <= i < j < |fields| ==> fields[i].name != fields[j].name
    ensures forall k :: 0 <= k < |items| ==> AllDigits(fields[2 * k + 1].value) && ParseNat(fields[2 * k + 1].value) == items[k].quantity
  {
    forall i, j | 0 <= i < j < |fields| ensures fields[i].name != fields[j].name {
      FieldNameAt(items, fields, i);
      FieldNameAt(items, fields, j);
      if fields[i].name == fields[j].name {
        FieldNameInjective(i / 2, j / 2, FieldKey(i), FieldKey(j));
        assert false;
      }
    }
    forall k | 0 <= k < |items| ensures AllDigits(fields[2 * k + 1].value) && ParseNat(fields[2 * k + 1].value) == items[k].quantity {
      ParseNatToString(items[k].quantity);
    }
  }

  // ---------------------------------------------------------------------------
  // The cart
  // ---------------------------------------------------------------------------

  class Cart {
    var items: seq<OrderItem>

    ghost predicate Valid()
      reads this
    {
      WellFormed(items)
    }

    constructor ()
      ensures Valid() && items == []
    {
      items := [];
    }

    /** The add-to-order handler: find the id, then increment or append. */
    method Add(id: string, name: string, price: real)
      requires Valid()
      modifies this
      ensures Valid()
      ensures items == Added(old(items), id, name, price)
    {
      AddedCounts(items, id, name, price);
      var i := 0;
      while i < |items| && items[i].id != id
        invariant 0 <= i <= |items|
        invariant forall j :: 0 <= j < i ==> items[j].id != id
      {
        i := i + 1;
      }
      if i < |items| {
        items := items[i := items[i].(quantity := items[i].quantity + 1)];
      } else {
        items := items + [OrderItem(id, name, price, 1)];
      }
    }

    method Increase(index: nat)
      requires Valid() && index < |items|
      modifies this
      ensures Valid()
      ensures items == Increased(old(items), index)
    {
      IncreasedCounts(items, index);
      items := items[index := items[index].(quantity := items[index].quantity + 1)];
    }

    method Decrease(index: nat)
      requires Valid() && index < |items|
      modifies this
      ensures Valid()
      ensures items == Decreased(old(items), index)
    {
      DecreasedCounts(items, index);
      if items[index].quantity > 1 {
        items := items[index := items[index].(quantity := items[index].quantity - 1)];
      } else {
        items := items[..index] + items[index + 1..];
      }
    }

    method Remove(index: nat)
      requires Valid() && index < |items|
      modifies this
      ensures Valid()
      ensures items == Removed(old(items), index)
    {
      RemovedCounts(items, index);
      items := items[..index] + items[index + 1..];
    }

    /** The clear button of food.js: nothing happens on an empty cart or when
        the user declines the confirmation. */
    method ClearIfConfirmed(confirmed: bool)
      requires Valid()
      modifies this
      ensures Valid()
      ensures items == if confirmed then [] else old(items)
    {
      if |items| == 0 {
        return;
      }
      if confirmed {
        items := [];
      }
    }

    /** The clear button of food_menu.js and user.js: no confirmation. */
    method Clear()
      requires Valid()
      modifies this
      ensures Valid() && items == []
    {
      items := [];
    }

    /** updateOrderSummary: hidden (None) for an empty cart, otherwise shown
        with the sum of price × quantity. */
    method Summary() returns (shown: Option<real>)
      ensures shown.None? <==> items == []
      ensures shown.Some? ==> shown.value == Total(items)
    {
      if |items| == 0 {
        return None;
      }
      var total := 0.0;
      var i := 0;
      while i < |items|
        invariant 0 <= i <= |items|
        invariant total == Total(items[..i])
      {
        assert items[..i + 1][..i] == items[..i];
        total := total + LineTotal(items[i]);
        i := i + 1;
      }
      assert items[..i] == items;
      return Some(total);
    }

    /** The place-order handler of food.js: an empty cart is refused with an
        alert; otherwise the hidden fields are built. */
    method PlaceOrder() returns (r: Option<seq<FormField>>)
      ensures r.None? <==> items == []
      ensures r.Some? ==>
        |r.value| == 2 * |items| &&
        forall k :: 0 <= k < |items| ==>
          r.value[2 * k] == FormField(FieldName(k, "menu_item_id"), items[k].id) &&
          r.value[2 * k + 1] == FormField(FieldName(k, "quantity"), IntToString(items[k].quantity))
    {
      if |items| == 0 {
        return None;
      }
      var fields := OrderFields(items);
      return Some(fields);
    }
  }
}
