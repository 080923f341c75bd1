/** The menu pages' own rules, apart from the cart: the availability toggle
    and the form checks of hotel_management_system/static/js/food.js, and the
    category tabs of food_menu.js. Form fields are strings; a date field is a
    day number or empty (None); a price field's parseFloat reading is passed
    in, None standing for NaN. */
module FoodPage {
  import opened Text
  import opened Wrappers

  /** The value the toggle button posts: 0 for an item shown as available
      (`data-available` is "1"), 1 for anything else, a missing attribute
      (None) included. */
  function ToggleValue(available: Option<string>): (v: int)
    ensures v == 0 || v == 1
    ensures v == 0 <==> available == Some("1")
  {
    if available == Some("1") then 0 else 1
  }

  /** The stored availability after the toggle route as written: it negates
      the posted value again, `1 if available == 0 else 0`. */
  function StoredAfterToggleAsWritten(posted: int): (stored: int)
    ensures stored == 0 || stored == 1
    ensures stored == 1 <==> posted == 0
  {
    if posted == 0 then 1 else 0
  }

  /** As written, a click leaves the stored availability as it was: the button
      posts the negated value, and the route negates it back. */
  lemma ClickKeepsStoredAsWritten(v: int)
    requires v == 0 || v == 1
    ensures StoredAfterToggleAsWritten(ToggleValue(Some(IntToString(v)))) == v
  {
  }

  /** The evidently intended route: store the value the button posts. */
  function StoredAfterToggle(posted: int): int {
    posted
  }

  /** With the intended route a click flips the stored availability, and a
      second click restores it. */
  lemma ClickFlipsStored(v: int)
    requires v == 0 || v == 1
    ensures StoredAfterToggle(ToggleValue(Some(IntToString(v)))) == 1 - v
    ensures StoredAfterToggle(ToggleValue(Some(IntToString(StoredAfterToggle(ToggleValue(Some(IntToString(v)))))))) == v
  {
  }

  /** The "all" option selects everything; any other value selects the
      sections (or cards) whose tag equals it. */
  predicate Selects(selected: string, tag: string) {
    selected == "all" || tag == selected
  }

  /** The tab handler's forEach: which category sections are displayed. */
  method ShowMatching(selected: string, tags: seq<string>) returns (shown: seq<bool>)
    ensures |shown| == |tags|
    ensures selected == "all" ==> forall i :: 0 <= i < |tags| ==> shown[i]
    ensures selected != "all" ==> forall i :: 0 <= i < |tags| ==> (shown[i] <==> tags[i] == selected)
  {
    shown := [];
    var i := 0;
    while i < |tags|
      invariant 0 <= i <= |tags| && |shown| == i
      invariant forall k :: 0 <= k < i ==> shown[k] == Selects(selected, tags[k])
    {
      shown := shown + [Selects(selected, tags[i])];
      i := i + 1;
    }
  }

  datatype MenuFormError = MissingFields | InvalidPrice

  /** The submit check of the add and edit menu-item forms. */
  function MenuFormCheck(name: string, description: string, price: string, parsedPrice: Option<real>): (r: Outcome<MenuFormError>)
    ensures r == Fail(MissingFields) <==> AllSpace(name) || AllSpace(description) || AllSpace(price)
    ensures r == Fail(InvalidPrice) <==>
      !AllSpace(name) && !AllSpace(description) && !AllSpace(price) && (parsedPrice.None? || parsedPrice.value <= 0.0)
  {
    TrimEmptyIffAllSpace(name);
    TrimEmptyIffAllSpace(description);
    TrimEmptyIffAllSpace(price);
    if Trim(name) == [] || Trim(description) == [] || Trim(price) == [] then Fail(MissingFields)
    else if parsedPrice.None? || parsedPrice.value <= 0.0 then Fail(InvalidPrice)
    else Pass
  }

  /** A menu form that goes through has a visible name, description and
      price, and a positive price. */
  lemma MenuFormPassMeansPositive(name: string, description: string, price: string, parsedPrice: Option<real>)
    requires MenuFormCheck(name, description, price, parsedPrice) == Pass
    ensures exists i :: 0 <= i < |name| && !IsJsSpace(name[i])
    ensures exists i :: 0 <= i < |description| && !IsJsSpace(description[i])
    ensures parsedPrice.Some? && parsedPrice.value > 0.0
  {
    assert !AllSpace(name) && !AllSpace(description);
  }

  datatype ReportFormError = MissingDate | StartAfterEnd

  /** The food sales report form's submit check; with both dates present,
      `>` on the two Date values is the order of the days. */
  function ReportFormCheck(startDate: Option<int>, endDate: Option<int>): (r: Outcome<ReportFormError>)
    ensures r == Fail(MissingDate) <==> startDate.None? || endDate.None?
    ensures r == Pass <==> startDate.Some? && endDate.Some? && startDate.value <= endDate.value
  {
    if startDate.None? || endDate.None? then Fail(MissingDate)
    else if startDate.value > endDate.value then Fail(StartAfterEnd)
    else Pass
  }
}
