/** `src/lib/adapters/inventory-to-xml.ts`: the `update` elements of an
    `availability/update` request, one per inventory update. As written the
    date writes go through a misspelt property and throw; the corrected
    reading writes them into the copied day flags. */
module InventoryAdapter {
  import opened JsString
  import opened JsValue
  import opened Util

  /** The properties of an update that are copied. */
  const UpdateFields: seq<string> := ["roomTypeId", "availability", "stopSell", "portalId"]

  /** The day flags of a date range that are copied. */
  const DayFields: seq<string> := ["sun", "mon", "tue", "wed", "thu", "fri", "sat"]

  const RangeFormat := "YYYY-MM-DD"

  /** A Date with known calendar fields, or nothing. */
  predicate DateField(v: Value) {
    v.Undef? || (v.DateVal? && v.date.Utc?)
  }

  /** `date` as `dateToStr` receives it. */
  function DateOf(v: Value): Option<UtcDate> {
    if v.DateVal? && v.date.Utc? then Some(v.date.utc) else None
  }

  /** An `InventoryUpdate` as callers build it: an object whose `dateRange`,
      when there is one, is an object whose `from` and `to` are Dates. */
  predicate Update(item: Value) {
    && item.Obj? && WellFormed(item)
    && var range := Get(item, "dateRange");
       range.Undef? || (range.Obj? && DateField(Get(range, "from")) && DateField(Get(range, "to")))
  }

  /** Every update carries a date range. */
  predicate Ranged(item: Value)
    requires Update(item)
  {
    !Get(item, "dateRange").Undef?
  }

  /** `clone(updateItem, [...])` with `dateRange` assigned: `{_attributes: clone(updateItem.dateRange, days)}`. */
  function Prepared(item: Value): seq<(string, Value)>
    requires item.Obj?
  {
    var copy := CopyFields(item.fields, Some(UpdateFields), |item.fields|);
    Put(copy, "dateRange", Obj([("_attributes", CloneOf(Get(item, "dateRange"), Some(DayFields)))]))
  }

  // ---------------------------------------------------------------------
  // As written

  /** One update as the source maps it: the statement after the copy reads
      `_attributes` of `result.dataRange`, a property nothing assigned, and
      throws a TypeError before `from` is written. */
  function ItemAsWritten(item: Value): (r: Result<Value>)
    requires item.Obj?
    ensures r == Throw(TypeError)
  {
    var result := Prepared(item);
    MisspeltAbsent(item);
    match Member(Lookup(result, "dataRange"), "_attributes")
    case Throw(e) => Throw(e)
    case Ok(_) => assert false; Throw(TypeError)
  }

  /** `result.dataRange` is never there: the copy keeps only the listed
      properties, and the assignment names `dateRange`. */
  lemma MisspeltAbsent(item: Value)
    requires item.Obj?
    ensures Lookup(Prepared(item), "dataRange") == Undef
  {
    NamesApart();
    var copy := CopyFields(item.fields, Some(UpdateFields), |item.fields|);
    assert "dataRange" !in Keys(copy);
  }

  /** `inventoryToXml(updates)` as written: the first update throws, so only
      the empty list maps. */
  function InventoryToXml(updates: seq<Value>): (r: Result<seq<Value>>)
    requires forall i :: 0 <= i < |updates| ==> updates[i].Obj?
    ensures r.Ok? <==> |updates| == 0
    ensures r.Ok? ==> r.value == []
    ensures r.Throw? ==> r.error == TypeError
  {
    if |updates| == 0 then Ok([])
    else
      match ItemAsWritten(updates[0])
      case Throw(e) => Throw(e)
      case Ok(_) => assert false; Throw(TypeError)
  }

  // ---------------------------------------------------------------------
  // Corrected

  /** `dateToStr(updateItem.dateRange?.from, 'YYYY-MM-DD')`, and the same for `to`. */
  function RangeText(range: Value, key: string): Value
    requires range.Obj?
  {
    Str(DateToStr(DateOf(Get(range, key)), RangeFormat))
  }

  /** The copied day flags with `from` and `to` written into them. */
  function DayAttributes(range: Value, from: Value, to: Value): seq<(string, Value)>
    requires range.Obj?
  {
    Put(Put(CopyFields(range.fields, Some(DayFields), |range.fields|), "from", from), "to", to)
  }

  /** The `dateRange` element of the corrected callback. */
  function RangeOf(range: Value): Value
    requires range.Obj?
  {
    Obj([("_attributes", Obj(DayAttributes(range, RangeText(range, "from"), RangeText(range, "to"))))])
  }

  /** The element of a ranged update. */
  function ElementOf(item: Value): Value
    requires Update(item) && Ranged(item)
  {
    Obj(Put(CopyFields(item.fields, Some(UpdateFields), |item.fields|), "dateRange", RangeOf(Get(item, "dateRange"))))
  }

  /** One update with the dates written where evidently meant, into
      `result.dateRange._attributes`; without a `dateRange` that object is
      `undefined` and the write throws a TypeError. */
  function ItemIntended(item: Value): (r: Result<Value>)
    requires Update(item)
    ensures r.Throw? <==> !Ranged(item)
    ensures r.Throw? ==> r.error == TypeError
  {
    if !Ranged(item) then Throw(TypeError) else Ok(ElementOf(item))
  }

  /** Every update of the list carries a date range. */
  predicate AllRanged(updates: seq<Value>)
    requires forall i :: 0 <= i < |updates| ==> Update(updates[i])
  {
    forall i :: 0 <= i < |updates| ==> Ranged(updates[i])
  }

  /** The statements of the corrected callback, one assignment at a time. */
  method BuildItem(item: Value) returns (r: Result<Value>)
    requires Update(item)
    ensures r == ItemIntended(item)
  {
    var copy := Clone(item, Some(UpdateFields));
    var days := Clone(Get(item, "dateRange"), Some(DayFields));
    var result := Put(copy.fields, "dateRange", Obj([("_attributes", days)]));
    if days.Undef? {
      return Throw(TypeError);
    }
    var range := Get(item, "dateRange");
    var attributes := Put(days.fields, "from", RangeText(range, "from"));
    attributes := Put(attributes, "to", RangeText(range, "to"));
    result := Put(result, "dateRange", Obj([("_attributes", Obj(attributes))]));
    r := Ok(Obj(result));
    PutTwice(copy.fields, "dateRange", Obj([("_attributes", days)]), Obj([("_attributes", Obj(attributes))]));
  }

  /** The corrected `inventoryToXml(updates)`: one element per update, in
      order, unless an update has no date range. */
  function InventoryToXmlIntended(updates: seq<Value>): (r: Result<seq<Value>>)
    requires forall i :: 0 <= i < |updates| ==> Update(updates[i])
    ensures r.Ok? <==> forall i :: 0 <= i < |updates| ==> Ranged(updates[i])
    ensures r.Throw? ==> r.error == TypeError
    ensures r.Ok? ==> |r.value| == |updates|
    ensures r.Ok? ==> forall i :: 0 <= i < |updates| ==> Ok(r.value[i]) == ItemIntended(updates[i])
  {
    if !AllRanged(updates) then Throw(TypeError)
    else Ok(seq(|updates|, i requires 0 <= i < |updates| && AllRanged(updates) => ElementOf(updates[i])))
  }

  // ---------------------------------------------------------------------
  // What the corrected element holds

  /** The element is the update's own copied properties, in their order,
      followed by `dateRange`. */
  lemma IntendedCopy(item: Value)
    requires Update(item) && Ranged(item)
    ensures ItemIntended(item)
         == Ok(Obj(Kept(item.fields, Some(UpdateFields)) + [("dateRange", RangeOf(Get(item, "dateRange")))]))
  {
    NamesApart();
    CopyThenFresh(item.fields, Some(UpdateFields), "dateRange", RangeOf(Get(item, "dateRange")));
  }

  /** The date range's attributes are exactly the day flags the update
      gives, with their values and in their order (no day gets a default),
      followed by `from` and `to`. */
  lemma IntendedDays(range: Value, from: Value, to: Value)
    requires range.Obj? && WellFormed(range)
    ensures DayAttributes(range, from, to) == Kept(range.fields, Some(DayFields)) + [("from", from), ("to", to)]
  {
    NamesApart();
    CopyThenTwo(range.fields, Some(DayFields), "from", from, "to", to);
  }

  /** The properties written after a copy are not among those it keeps. */
  lemma NamesApart()
    ensures "from" !in DayFields && "to" !in DayFields
    ensures "dateRange" !in UpdateFields && "dataRange" !in UpdateFields
    ensures "dataRange" != "dateRange"
  {
  }

  /** `from` and `to` are written `YYYY-MM-DD` from the Date's UTC fields. */
  lemma IntendedDates(range: Value, key: string, d: UtcDate)
    requires range.Obj? && Get(range, key) == DateVal(Utc(d)) && CalendarFields(d)
    ensures RangeText(range, key) == Str(Year4(d) + "-" + Month2(d) + "-" + Day2(d))
  {
    DateToStrIso(d);
  }

  /** The defect: an update with a date range maps as intended, but the code
      as written throws on it. */
  lemma DefectShown(item: Value)
    requires Update(item) && Ranged(item)
    ensures InventoryToXml([item]) == Throw(TypeError)
    ensures InventoryToXmlIntended([item]) == Ok([ItemIntended(item).value])
  {
    assert ItemAsWritten([item][0]).Throw?;
    var r := InventoryToXmlIntended([item]);
    assert r.Ok? && |r.value| == 1 && r.value[0] == ItemIntended(item).value;
    Singleton(r.value, ItemIntended(item).value);
  }
}
