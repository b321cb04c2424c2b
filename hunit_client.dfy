/** The pure parts of `HUnitClient` in `src/lib/hunit-client.ts`: the request
    envelope with the credentials, the reading of an answer's error element,
    and what each operation makes of the parsed answer. The HTTP transport
    and the XML (de)serialisation are not modelled: requests stop at the
    compact tree, answers start from it. */
module Client {
  import opened JsString
  import opened JsValue
  import opened Util
  import opened ReservationAdapter
  import opened PortalAdapter
  import opened InventoryAdapter

  // ---------------------------------------------------------------------
  // getXMLBase

  /** `{_attributes: {version: '1.0', encoding: 'UTF-8', standalone: 'yes'}}`. */
  const Declaration: Value :=
    Obj([("_attributes", Obj([("version", Str("1.0")), ("encoding", Str("UTF-8")), ("standalone", Str("yes"))]))])

  /** The root element's content: the literal's `userName` and `password`,
      `hotelId` spread in only when `setHotelId`, then the spread `content`. */
  function RootBody(credentials: Value, content: Value, setHotelId: bool): seq<(string, Value)>
    requires !credentials.Undef?
  {
    var names := [("userName", Get(credentials, "userName")), ("password", Get(credentials, "password"))];
    var withId := if setHotelId then Put(names, "hotelId", Get(credentials, "hotelId")) else names;
    Spread(withId, content)
  }

  /** `getXMLBase(rootTag, content, setHotelId)`: the declaration, then the
      root element assigned under `rootTag`. */
  function GetXmlBase(credentials: Value, rootTag: string, content: Value, setHotelId: bool): (r: Value)
    requires !credentials.Undef?
    ensures r.Obj? && Lookup(r.fields, rootTag) == Obj(RootBody(credentials, content, setHotelId))
    ensures Keys(r.fields) == if rootTag == "_declaration" then ["_declaration"] else ["_declaration", rootTag]
  {
    Obj(Put([("_declaration", Declaration)], rootTag, Obj(RootBody(credentials, content, setHotelId))))
  }

  /** The credential properties the root element starts with. */
  function CredentialKeys(setHotelId: bool): seq<string> {
    if setHotelId then ["userName", "password", "hotelId"] else ["userName", "password"]
  }

  /** The request tree is the declaration followed by the root element. */
  lemma XmlBaseLayout(credentials: Value, rootTag: string, content: Value, setHotelId: bool)
    requires !credentials.Undef? && rootTag != "_declaration"
    ensures GetXmlBase(credentials, rootTag, content, setHotelId)
         == Obj([("_declaration", Declaration), (rootTag, Obj(RootBody(credentials, content, setHotelId)))])
  {
    PutFresh([("_declaration", Declaration)], rootTag, Obj(RootBody(credentials, content, setHotelId)));
  }

  /** The credentials come first, as the credentials hold them, in the order
      userName, password, and hotelId only when asked for. */
  lemma CredentialsFirst(credentials: Value, setHotelId: bool)
    requires !credentials.Undef?
    ensures Keys(RootBody(credentials, Undef, setHotelId)) == CredentialKeys(setHotelId)
    ensures Lookup(RootBody(credentials, Undef, setHotelId), "userName") == Get(credentials, "userName")
    ensures Lookup(RootBody(credentials, Undef, setHotelId), "password") == Get(credentials, "password")
    ensures setHotelId ==> Lookup(RootBody(credentials, Undef, setHotelId), "hotelId") == Get(credentials, "hotelId")
  {
    var names := [("userName", Get(credentials, "userName")), ("password", Get(credentials, "password"))];
    var id := Get(credentials, "hotelId");
    assert RootBody(credentials, Undef, setHotelId) == if setHotelId then Put(names, "hotelId", id) else names;
    CredentialNames(names);
    if setHotelId {
      IdAfterNames(names, id);
    }
  }

  lemma IdAfterNames(names: seq<(string, Value)>, id: Value)
    requires Keys(names) == ["userName", "password"]
    ensures Keys(Put(names, "hotelId", id)) == ["userName", "password", "hotelId"]
  {
    assert "hotelId" !in Keys(names);
  }

  lemma CredentialNames(names: seq<(string, Value)>)
    requires |names| == 2 && names[0].0 == "userName" && names[1].0 == "password"
    ensures Keys(names) == ["userName", "password"]
    ensures "hotelId" !in Keys(names)
    ensures Lookup(names, "userName") == names[0].1 && Lookup(names, "password") == names[1].1
  {
    LookupCons(names);
    LookupCons(names[1..]);
  }

  /** Content whose properties are not credentials follows them, in its own
      order and with its own values. */
  lemma ContentAfter(credentials: Value, fields: seq<(string, Value)>, setHotelId: bool)
    requires !credentials.Undef? && DistinctKeys(fields)
    requires forall k :: k in Keys(fields) ==> k !in CredentialKeys(setHotelId)
    ensures Keys(RootBody(credentials, Obj(fields), setHotelId)) == CredentialKeys(setHotelId) + Keys(fields)
    ensures forall k :: k in Keys(fields) ==> Lookup(RootBody(credentials, Obj(fields), setHotelId), k) == Lookup(fields, k)
  {
    CredentialsFirst(credentials, setHotelId);
    var base := RootBody(credentials, Undef, setHotelId);
    BodyWithContent(credentials, fields, setHotelId);
    SpreadFresh(base, fields);
  }

  lemma BodyWithContent(credentials: Value, fields: seq<(string, Value)>, setHotelId: bool)
    requires !credentials.Undef?
    ensures RootBody(credentials, Obj(fields), setHotelId) == PutAll(RootBody(credentials, Undef, setHotelId), fields)
  {
    assert Entries(Obj(fields)) == fields;
  }

  // ---------------------------------------------------------------------
  // errorHandler

  /** `key[0] === '_'`; the empty name has no first character and does not
      count as one. */
  predicate Underscored(k: string) {
    |k| > 0 && k[0] == '_'
  }

  /** `Object.keys(xmlResponse).find((key) => key[0] !== '_')`, as a position. */
  function FirstRoot(keys: seq<string>): (r: Option<nat>)
    ensures r.Some? ==> r.value < |keys| && !Underscored(keys[r.value])
    ensures r.Some? ==> forall j :: 0 <= j < r.value ==> Underscored(keys[j])
    ensures r.None? ==> forall j :: 0 <= j < |keys| ==> Underscored(keys[j])
  {
    if |keys| == 0 then None
    else if !Underscored(keys[0]) then Some(0)
    else
      match FirstRoot(keys[1..])
      case None => None
      case Some(i) => Some(i + 1)
  }

  /** The property at `i` is the answer's root element: the first whose name
      does not start with an underscore. */
  predicate RootAt(fields: seq<(string, Value)>, i: int) {
    && 0 <= i < |fields|
    && !Underscored(fields[i].0)
    && forall j :: 0 <= j < i ==> Underscored(fields[j].0)
  }

  /** Reading the root by its name finds that very property. */
  lemma RootLookup(fields: seq<(string, Value)>, i: int)
    requires RootAt(fields, i)
    ensures Lookup(fields, fields[i].0) == fields[i].1
  {
    assert Keys(fields)[i] == fields[i].0;
    var m := FindKey(fields, fields[i].0).value;
    assert m <= i;
  }

  /** At most one property is the root. */
  lemma RootUnique(fields: seq<(string, Value)>, i: int, j: int)
    requires RootAt(fields, i) && RootAt(fields, j)
    ensures i == j
  {
  }

  /** The value thrown for an error element: its `error` children as a list. */
  function ErrorList(errors: Value): Value
    requires !errors.Undef?
  {
    Arr(TransformToArray(Get(errors, "error")))
  }

  /** `errorHandler(xmlResponse)`: an answer whose root element carries
      `errors` is thrown as the list of its `error` children; any other answer
      is passed on untouched. A root with an empty name is falsy and never
      inspected. */
  function ErrorHandler(response: Value): (r: Result<Value>)
    requires Parsed(response) && response.Obj?
    ensures r.Ok? ==> r.value == response
    ensures r.Throw? ==> exists i :: RootAt(response.fields, i) && Truthy(Get(response.fields[i].1, "errors"))
                                     && r.error == Thrown(ErrorList(Get(response.fields[i].1, "errors")))
    ensures r.Throw? <==> exists i :: RootAt(response.fields, i) && response.fields[i].0 != ""
                                      && Truthy(Get(response.fields[i].1, "errors"))
  {
    match FirstRoot(Keys(response.fields))
    case None => Ok(response)
    case Some(i) =>
      var rootTag := response.fields[i].0;
      if rootTag == "" then Ok(response)
      else
        RootLookup(response.fields, i);
        var root := Get(response, rootTag);
        var errors := Get(root, "errors");
        if Truthy(errors) then Throw(Thrown(ErrorList(errors))) else Ok(response)
  }

  /** The answer as the parser gives it, a declaration and then the root
      element: it is thrown exactly when the root carries `errors`. */
  lemma DeclaredAnswer(declaration: Value, rootTag: string, root: Value)
    requires Parsed(declaration) && Parsed(root) && rootTag != "" && !Underscored(rootTag)
    ensures var response := Obj([("_declaration", declaration), (rootTag, root)]);
      Parsed(response) && ErrorHandler(response) == if Truthy(Get(root, "errors")) then Throw(Thrown(ErrorList(Get(root, "errors")))) else Ok(response)
  {
    var fields := [("_declaration", declaration), (rootTag, root)];
    assert Underscored(fields[0].0);
    assert Keys(fields) == ["_declaration", rootTag];
    assert RootAt(fields, 1);
    assert FirstRoot(Keys(fields)) == Some(1);
    RootLookup(fields, 1);
  }

  /** Whatever precedes the root, the handler throws the root's error list
      exactly when the root carries `errors`. */
  lemma ErrorValue(response: Value, i: int)
    requires Parsed(response) && response.Obj?
    requires RootAt(response.fields, i) && response.fields[i].0 != ""
    ensures var errors := Get(response.fields[i].1, "errors");
      ErrorHandler(response) == if Truthy(errors) then Throw(Thrown(ErrorList(errors))) else Ok(response)
  {
    var j := FirstRoot(Keys(response.fields));
    assert Keys(response.fields)[i] == response.fields[i].0;
    assert j.Some? && j.value <= i;
    assert Keys(response.fields)[j.value] == response.fields[j.value].0;
    RootUnique(response.fields, i, j.value);
    RootLookup(response.fields, i);
  }

  // ---------------------------------------------------------------------
  // The write operations

  /** `!response.<tag>.errors`, read off the answer `errorHandler` passed on. */
  function Confirmed(response: Value, tag: string): (r: Result<bool>)
    requires Parsed(response) && response.Obj?
    ensures r.Throw? <==> Get(response, tag).Undef?
  {
    var root := Get(response, tag);
    if root.Undef? then Throw(TypeError) else Ok(!Truthy(Get(root, "errors")))
  }

  /** What a write operation resolves to, given the parsed answer. */
  function WriteOutcome(response: Value, tag: string): (r: Result<bool>)
    requires Parsed(response) && response.Obj?
    ensures r.Throw? <==> ErrorHandler(response).Throw? || Get(response, tag).Undef?
    ensures ErrorHandler(response).Throw? ==> r.Throw? && r.error == ErrorHandler(response).error
    ensures r.Ok? ==> r.value == !Truthy(Get(Get(response, tag), "errors"))
  {
    match ErrorHandler(response)
    case Throw(e) => Throw(e)
    case Ok(checked) => Confirmed(checked, tag)
  }

  /** When the answer's root is the tag the operation checks (`updateRS`,
      `reservationConfirmeRS` or `occupancyRateRS`), the operation resolves
      `true` or rejects with the thrown error list, never `false`. */
  lemma WriteNeverFalse(response: Value, tag: string, i: int)
    requires Parsed(response) && response.Obj?
    requires RootAt(response.fields, i) && response.fields[i].0 == tag && tag != ""
    ensures WriteOutcome(response, tag).Ok? ==> WriteOutcome(response, tag).value
    ensures WriteOutcome(response, tag).Throw? ==> WriteOutcome(response, tag).error.Thrown?
    ensures WriteOutcome(response, tag).Ok? <==> !Truthy(Get(response.fields[i].1, "errors"))
  {
    ErrorValue(response, i);
    RootLookup(response.fields, i);
  }

  /** `{ update }` and `{ confirmations: { confirmation } }`: the content of
      the write requests. */
  function UpdatesOf(update: seq<Value>): Value {
    Obj([("updates", Obj([("update", Arr(update))]))])
  }

  function ConfirmationsOf(confirmation: seq<Value>): Value {
    Obj([("confirmations", Obj([("confirmation", Arr(confirmation))]))])
  }

  /** `bookingReadOneCall`'s request. */
  function BookingReadOneCallRequest(credentials: Value): Value
    requires !credentials.Undef?
  {
    GetXmlBase(credentials, "reservationRQ", Undef, false)
  }

  /** `confirmePost`'s request, and `bookingConfirmationOneCall`'s. */
  function ConfirmePostRequest(credentials: Value, confirmation: seq<Value>): Value
    requires !credentials.Undef?
  {
    GetXmlBase(credentials, "reservationConfirmeRQ", ConfirmationsOf(confirmation), true)
  }

  function ConfirmationOneCallRequest(credentials: Value, confirmation: seq<Value>): Value
    requires !credentials.Undef?
  {
    GetXmlBase(credentials, "reservationConfirmeRQ", ConfirmationsOf(confirmation), false)
  }

  /** `bookingReadOneCall` sends the user name and the password and no `hotelId`. */
  lemma OneCallReadWithoutHotel(credentials: Value)
    requires !credentials.Undef?
    ensures BookingReadOneCallRequest(credentials)
         == Obj([("_declaration", Declaration), ("reservationRQ", Obj(RootBody(credentials, Undef, false)))])
    ensures Keys(RootBody(credentials, Undef, false)) == ["userName", "password"]
  {
    XmlBaseLayout(credentials, "reservationRQ", Undef, false);
    CredentialsFirst(credentials, false);
  }

  /** `bookingConfirmationOneCall` sends the confirmations after the user name
      and the password, with no `hotelId`. */
  lemma OneCallConfirmWithoutHotel(credentials: Value, confirmation: seq<Value>)
    requires !credentials.Undef?
    ensures ConfirmationOneCallRequest(credentials, confirmation)
         == Obj([("_declaration", Declaration), ("reservationConfirmeRQ", Obj(RootBody(credentials, ConfirmationsOf(confirmation), false)))])
    ensures Keys(RootBody(credentials, ConfirmationsOf(confirmation), false)) == ["userName", "password", "confirmations"]
  {
    XmlBaseLayout(credentials, "reservationConfirmeRQ", ConfirmationsOf(confirmation), false);
    SingleContent(credentials, "confirmations", Obj([("confirmation", Arr(confirmation))]), false);
  }

  /** `confirmePost` sends the same confirmations with the hotel's `hotelId`. */
  lemma ConfirmeWithHotel(credentials: Value, confirmation: seq<Value>)
    requires !credentials.Undef?
    ensures ConfirmePostRequest(credentials, confirmation)
         == Obj([("_declaration", Declaration), ("reservationConfirmeRQ", Obj(RootBody(credentials, ConfirmationsOf(confirmation), true)))])
    ensures Keys(RootBody(credentials, ConfirmationsOf(confirmation), true)) == ["userName", "password", "hotelId", "confirmations"]
  {
    XmlBaseLayout(credentials, "reservationConfirmeRQ", ConfirmationsOf(confirmation), true);
    SingleContent(credentials, "confirmations", Obj([("confirmation", Arr(confirmation))]), true);
  }

  /** Content with a single property named apart from the credentials comes
      after them. */
  lemma SingleContent(credentials: Value, k: string, x: Value, setHotelId: bool)
    requires !credentials.Undef? && (k == "confirmations" || k == "updates")
    ensures Keys(RootBody(credentials, Obj([(k, x)]), setHotelId)) == CredentialKeys(setHotelId) + [k]
    ensures Lookup(RootBody(credentials, Obj([(k, x)]), setHotelId), k) == x
  {
    assert Keys([(k, x)]) == [k];
    assert k !in CredentialKeys(setHotelId);
    ContentAfter(credentials, [(k, x)], setHotelId);
    LookupCons([(k, x)]);
  }

  // ---------------------------------------------------------------------
  // availabilityUpdate and occupancyRateUpdate

  /** `availabilityUpdate`'s request: `inventoryToXml` runs first, so any
      update at all throws before anything is posted. */
  function AvailabilityRequest(credentials: Value, updates: seq<Value>): (r: Result<Value>)
    requires !credentials.Undef? && forall i :: 0 <= i < |updates| ==> updates[i].Obj?
    ensures r.Ok? <==> |updates| == 0
    ensures r.Throw? ==> r.error == TypeError
  {
    match InventoryToXml(updates)
    case Throw(e) => Throw(e)
    case Ok(update) => Ok(GetXmlBase(credentials, "updateRQ", UpdatesOf(update), true))
  }

  /** The same request over the corrected mapping. */
  function AvailabilityRequestIntended(credentials: Value, updates: seq<Value>): (r: Result<Value>)
    requires !credentials.Undef? && forall i :: 0 <= i < |updates| ==> Update(updates[i])
    ensures r.Ok? <==> AllRanged(updates)
    ensures r.Ok? ==> r.value == GetXmlBase(credentials, "updateRQ", UpdatesOf(InventoryToXmlIntended(updates).value), true)
  {
    match InventoryToXmlIntended(updates)
    case Throw(e) => Throw(e)
    case Ok(update) => Ok(GetXmlBase(credentials, "updateRQ", UpdatesOf(update), true))
  }

  /** One daily rate: its Date (`None` for none) and its occupancy. */
  datatype OccupancyRate = OccupancyRate(date: Option<UtcDate>, occupancy: Value)

  /** `{_attributes: {date: dateToStr(rate.date, 'YYYY-MM-DD'), occupancy: rate.occupancy}}`. */
  function OccupancyUpdate(rate: OccupancyRate): Value {
    Obj([("_attributes", Obj([("date", Str(DateToStr(rate.date, "YYYY-MM-DD"))), ("occupancy", rate.occupancy)]))])
  }

  /** `occupancyRates.map(...)`: one update per rate, in order. */
  function OccupancyUpdates(rates: seq<OccupancyRate>): (update: seq<Value>)
    ensures |update| == |rates|
    ensures forall i :: 0 <= i < |rates| ==> update[i] == OccupancyUpdate(rates[i])
  {
    seq(|rates|, i requires 0 <= i < |rates| => OccupancyUpdate(rates[i]))
  }

  /** `occupancyRateUpdate`'s request. */
  function OccupancyRequest(credentials: Value, rates: seq<OccupancyRate>): Value
    requires !credentials.Undef?
  {
    GetXmlBase(credentials, "occupancyRateRQ", UpdatesOf(OccupancyUpdates(rates)), true)
  }

  /** The request holds the credentials with `hotelId`, then the updates. */
  lemma OccupancyRequestBody(credentials: Value, rates: seq<OccupancyRate>)
    requires !credentials.Undef?
    ensures OccupancyRequest(credentials, rates)
         == Obj([("_declaration", Declaration), ("occupancyRateRQ", Obj(RootBody(credentials, UpdatesOf(OccupancyUpdates(rates)), true)))])
    ensures Keys(RootBody(credentials, UpdatesOf(OccupancyUpdates(rates)), true)) == ["userName", "password", "hotelId", "updates"]
    ensures Lookup(RootBody(credentials, UpdatesOf(OccupancyUpdates(rates)), true), "updates")
         == Obj([("update", Arr(OccupancyUpdates(rates)))])
  {
    var update := OccupancyUpdates(rates);
    XmlBaseLayout(credentials, "occupancyRateRQ", UpdatesOf(update), true);
    SingleContent(credentials, "updates", Obj([("update", Arr(update))]), true);
  }

  /** A rate's date is written `YYYY-MM-DD` from its UTC fields; no date
      gives the empty text. */
  lemma OccupancyDate(rate: OccupancyRate)
    requires rate.date.Some? ==> CalendarFields(rate.date.value)
    ensures OccupancyUpdate(rate).fields[0].1.fields[0].1
         == Str(if rate.date.None? then "" else Year4(rate.date.value) + "-" + Month2(rate.date.value) + "-" + Day2(rate.date.value))
  {
    if rate.date.Some? {
      DateToStrIso(rate.date.value);
    }
  }

  // ---------------------------------------------------------------------
  // packageRead

  /** `{...clone(attrs), ...(!!attrs.createDateTime && {createDateTime: new Date(...)})}`. */
  function PackageFieldsOf(attrs: Value): seq<(string, Value)>
    requires Parsed(attrs)
  {
    var created := Get(attrs, "createDateTime");
    PutIf(Spread([], CloneOf(attrs, None)), created, "createDateTime", DateVal(NewDate(created)))
  }

  /** One package: without `_attributes` the copy is `undefined` and reading
      its `createDateTime` throws a TypeError. */
  function PackageOf(item: Value): (r: Result<Value>)
    requires Parsed(item)
    ensures r.Throw? <==> Get(item, "_attributes").Undef?
    ensures r.Throw? ==> r.error == TypeError
  {
    var attrs := Get(item, "_attributes");
    if attrs.Undef? then Throw(TypeError) else Ok(Obj(PackageFieldsOf(attrs)))
  }

  /** `packageXMLList.map(...)`. */
  function Packages(list: seq<Value>): Result<seq<Value>>
    requires forall i :: 0 <= i < |list| ==> Parsed(list[i])
  {
    if !Attributed(list) then Throw(TypeError)
    else Ok(seq(|list|, i requires 0 <= i < |list| && Attributed(list) => PackageOf(list[i]).value))
  }

  function PackageNode(response: Value): Value
    requires Parsed(response) && !Get(response, "packageRS").Undef?
  {
    Get(Get(response, "packageRS"), "package")
  }

  /** The result of `packageRead` for a parsed answer: no `package` gives no
      packages; otherwise one per entry, a single entry counting as a list. */
  function PackageRead(response: Value): (r: Result<seq<Value>>)
    requires Parsed(response)
    ensures r.Throw? <==> Get(response, "packageRS").Undef?
                          || (Truthy(PackageNode(response)) && !Attributed(TransformToArray(PackageNode(response))))
    ensures r.Throw? ==> r.error == TypeError
    ensures !Get(response, "packageRS").Undef? && !Truthy(PackageNode(response)) ==> r == Ok([])
  {
    var rs := Get(response, "packageRS");
    if rs.Undef? then Throw(TypeError)
    else
      var node := Get(rs, "package");
      if !Truthy(node) then Ok([]) else Packages(TransformToArray(node))
  }

  /** One package per entry, in order. */
  lemma PackageList(response: Value)
    requires Parsed(response) && !Get(response, "packageRS").Undef?
    requires Truthy(PackageNode(response)) && Attributed(TransformToArray(PackageNode(response)))
    ensures PackageRead(response).Ok?
    ensures |PackageRead(response).value| == |TransformToArray(PackageNode(response))|
    ensures forall i :: 0 <= i < |TransformToArray(PackageNode(response))| ==>
              PackageRead(response).value[i] == PackageOf(TransformToArray(PackageNode(response))[i]).value
  {
    var list := TransformToArray(PackageNode(response));
    assert PackageRead(response) == Packages(list);
  }

  /** A package has exactly the attributes' properties, in their order and
      with their values, except that a non-empty `createDateTime` becomes a
      Date built from its text. */
  lemma PackageFields(fields: seq<(string, Value)>)
    requires Parsed(Obj(fields)) && WellFormed(Obj(fields))
    ensures Keys(PackageFieldsOf(Obj(fields))) == Keys(fields)
    ensures forall k :: k != "createDateTime" ==> Lookup(PackageFieldsOf(Obj(fields)), k) == Lookup(fields, k)
    ensures var created := Get(Obj(fields), "createDateTime");
      Lookup(PackageFieldsOf(Obj(fields)), "createDateTime") == if Truthy(created) then DateVal(NewDate(created)) else created
  {
    CloneIdentity(Obj(fields));
    assert Spread([], Obj(fields)) == PutAll([], fields);
    SpreadFresh([], fields);
    assert [] + Keys(fields) == Keys(fields);
    var spread := PutAll([], fields);
    forall k | k !in Keys(fields) ensures Lookup(spread, k) == Lookup(fields, k) {
    }
  }

  // ---------------------------------------------------------------------
  // roomRateRead

  const RateTexts: seq<string> := ["id", "name", "masterRoomRateId", "MasterRoomRate"]
  const RateFlags: seq<string> := ["isActive", "isChildRoomRate"]

  /** One room rate: `{...cloneXmlStrings(attrs, texts), ...cloneXmlBooleans(attrs, flags)}`;
      reading `_attributes` of an `undefined` entry, or copying from missing
      attributes, throws a TypeError. */
  function RoomRateOf(item: Value): (r: Result<Value>)
    requires item.Undef? || Parsed(item)
    ensures r.Throw? <==> item.Undef? || Get(item, "_attributes").Undef?
    ensures r.Throw? ==> r.error == TypeError
  {
    if item.Undef? then Throw(TypeError)
    else
      var attrs := Get(item, "_attributes");
      match XmlFieldsOf(attrs, Some(RateTexts), AsStrings)
      case Throw(e) => Throw(e)
      case Ok(texts) =>
        match XmlFieldsOf(attrs, Some(RateFlags), AsBooleans)
        case Throw(e) => Throw(e)
        case Ok(flags) => Ok(Obj(PutAll(PutAll([], texts), flags)))
  }

  /** Every entry is there and carries its attributes. */
  predicate RatesReadable(list: seq<Value>)
    requires forall i :: 0 <= i < |list| ==> list[i].Undef? || Parsed(list[i])
  {
    forall i :: 0 <= i < |list| ==> !list[i].Undef? && !Get(list[i], "_attributes").Undef?
  }

  /** A falsy `roomRate` (`undefined`, `false`, `0`, `""`) becomes a list of
      one entry without attributes. */
  lemma FalsyUnreadable(node: Value)
    requires node.Undef? || Parsed(node)
    ensures var list := TransformToArray(node);
      (forall i :: 0 <= i < |list| ==> list[i].Undef? || Parsed(list[i]))
      && (!Truthy(node) ==> !RatesReadable(list))
  {
    var list := TransformToArray(node);
    if !Truthy(node) {
      assert list == [node];
      if node.Str? {
        assert IndexOfKey("_attributes", |node.s|, 0) == None;
      }
      assert list[0].Undef? || Get(list[0], "_attributes").Undef?;
      assert !(!list[0].Undef? && !Get(list[0], "_attributes").Undef?);
    }
  }

  /** `roomRateXMLList.map(...)`. */
  function RoomRates(list: seq<Value>): Result<seq<Value>>
    requires forall i :: 0 <= i < |list| ==> list[i].Undef? || Parsed(list[i])
  {
    if !RatesReadable(list) then Throw(TypeError)
    else Ok(seq(|list|, i requires 0 <= i < |list| && RatesReadable(list) => RoomRateOf(list[i]).value))
  }

  /** The result of `roomRateRead` as written: with no guard, a missing
      `roomRate` becomes `[undefined]` and its entry throws. */
  function RoomRateRead(response: Value): (r: Result<seq<Value>>)
    requires Parsed(response)
    ensures Get(response, "roomRateRS").Undef? ==> r == Throw(TypeError)
    ensures !Get(response, "roomRateRS").Undef? && !Truthy(Get(Get(response, "roomRateRS"), "roomRate")) ==> r == Throw(TypeError)
  {
    var rs := Get(response, "roomRateRS");
    if rs.Undef? then Throw(TypeError)
    else
      var list := TransformToArray(Get(rs, "roomRate"));
      FalsyUnreadable(Get(rs, "roomRate"));
      RoomRates(list)
  }

  /** `roomRateRead` with the guard its siblings have: no `roomRate` gives
      no room rates. */
  function RoomRateReadIntended(response: Value): (r: Result<seq<Value>>)
    requires Parsed(response)
    ensures r.Throw? <==> Get(response, "roomRateRS").Undef?
                          || (Truthy(Get(Get(response, "roomRateRS"), "roomRate"))
                              && !RatesReadable(TransformToArray(Get(Get(response, "roomRateRS"), "roomRate"))))
    ensures !Get(response, "roomRateRS").Undef? && !Truthy(Get(Get(response, "roomRateRS"), "roomRate")) ==> r == Ok([])
  {
    var rs := Get(response, "roomRateRS");
    if rs.Undef? then Throw(TypeError)
    else
      var node := Get(rs, "roomRate");
      if !Truthy(node) then Ok([]) else RoomRates(TransformToArray(node))
  }

  /** A readable list of `roomRate` entries gives one room rate per entry,
      in order, both as written and with the guard. */
  lemma RoomRateList(response: Value)
    requires Parsed(response) && !Get(response, "roomRateRS").Undef?
    requires Truthy(Get(Get(response, "roomRateRS"), "roomRate"))
    requires RatesReadable(TransformToArray(Get(Get(response, "roomRateRS"), "roomRate")))
    ensures var list := TransformToArray(Get(Get(response, "roomRateRS"), "roomRate"));
      var r := RoomRateReadIntended(response);
      && r.Ok? && |r.value| == |list|
      && (forall i :: 0 <= i < |list| ==> Ok(r.value[i]) == RoomRateOf(list[i]))
      && RoomRateRead(response) == r
  {
    var list := TransformToArray(Get(Get(response, "roomRateRS"), "roomRate"));
    assert RoomRateReadIntended(response) == RoomRates(list);
    RoomRatesEach(list);
    RoomRateDefect(response);
  }

  /** The `map` over readable entries: one room rate per entry, in order. */
  lemma RoomRatesEach(list: seq<Value>)
    requires forall i :: 0 <= i < |list| ==> list[i].Undef? || Parsed(list[i])
    requires RatesReadable(list)
    ensures RoomRates(list).Ok? && |RoomRates(list).value| == |list|
    ensures forall i :: 0 <= i < |list| ==> Ok(RoomRates(list).value[i]) == RoomRateOf(list[i])
  {
  }

  /** The defect: an answer without room rates, or with a falsy `roomRate`
      such as an empty text, throws as written and gives the empty list once
      guarded; with room rates the two agree. */
  lemma RoomRateDefect(response: Value)
    requires Parsed(response) && !Get(response, "roomRateRS").Undef?
    ensures !Truthy(Get(Get(response, "roomRateRS"), "roomRate")) ==>
              RoomRateRead(response) == Throw(TypeError) && RoomRateReadIntended(response) == Ok([])
    ensures Truthy(Get(Get(response, "roomRateRS"), "roomRate")) ==> RoomRateRead(response) == RoomRateReadIntended(response)
  {
  }

  /** A room rate keeps only the four text and the two flag attributes the
      element has, the texts as strings and the flags as booleans. */
  lemma RoomRateFields(attrs: Value, k: string)
    requires Parsed(attrs)
    ensures var r := RoomRateOf(Obj([("_attributes", attrs)]));
      && r.Ok? && r.value.Obj?
      && (k in Keys(r.value.fields) <==> (k in RateTexts || k in RateFlags) && Has(attrs, k))
      && (k in RateTexts && Has(attrs, k) ==> Lookup(r.value.fields, k) == AttrText(attrs, k))
      && (k in RateFlags && Has(attrs, k) ==> Lookup(r.value.fields, k) == AttrFlag(attrs, k))
  {
    var item := Obj([("_attributes", attrs)]);
    LookupCons(item.fields);
    assert Get(item, "_attributes") == attrs;
    var texts := PickFields(attrs, RateTexts, AsStrings);
    var flags := PickFields(attrs, RateFlags, AsBooleans);
    RateNamesApart();
    var spread := PutAll([], texts);
    assert RoomRateOf(item) == Ok(Obj(PutAll(spread, flags)));
    if k in Keys(flags) {
      PutAllLookup(spread, flags, k);
    } else if k in Keys(texts) {
      PutAllLookup([], texts, k);
    }
  }

  /** An attribute read as text, and as a flag. */
  function AttrText(attrs: Value, k: string): Value
    requires Parsed(attrs)
  {
    Str(GetXmlString(Get(attrs, k)))
  }

  function AttrFlag(attrs: Value, k: string): Value
    requires Parsed(attrs)
  {
    Bool(GetXmlBoolean(Get(attrs, k)))
  }

  lemma RateNamesApart()
    ensures forall k :: k in RateTexts ==> k !in RateFlags
  {
  }

  // ---------------------------------------------------------------------
  // bookingByIdRead

  /** The result of `bookingByIdRead` for a parsed answer: `undefined`
      (`Undef`) without a `reservation`, else the first element of what
      `xmlToReservation` gives under `reservationByIdRS` (`undefined` for an
      empty list). */
  function BookingByIdRead(response: Value, currentYear: int): (r: Result<Value>)
    requires Parsed(response)
    ensures r.Throw? <==> Get(response, "reservationByIdRS").Undef?
    ensures r.Throw? ==> r.error == TypeError
    ensures r.Ok? && !Truthy(Get(Get(response, "reservationByIdRS"), "reservation")) ==> r.value == Undef
  {
    var rs := Get(response, "reservationByIdRS");
    if rs.Undef? then Throw(TypeError)
    else if !Truthy(Get(rs, "reservation")) then Ok(Undef)
    else
      match XmlToReservation(response, "reservationByIdRS", currentYear)
      case Throw(e) => assert false; Throw(e)
      case Ok(list) => Ok(if |list| == 0 then Undef else list[0])
  }

  /** With a reservation present, the answer is the first one, parsed. */
  lemma BookingByIdFirst(response: Value, currentYear: int)
    requires Parsed(response) && !Get(response, "reservationByIdRS").Undef?
    requires var node := Get(Get(response, "reservationByIdRS"), "reservation");
      Truthy(node) && |TransformToArray(node)| > 0
    ensures var node := Get(Get(response, "reservationByIdRS"), "reservation");
      BookingByIdRead(response, currentYear) == Ok(ReservationOf(TransformToArray(node)[0], currentYear))
  {
    var node := Get(Get(response, "reservationByIdRS"), "reservation");
    var list := Reservations(TransformToArray(node), currentYear);
    assert XmlToReservation(response, "reservationByIdRS", currentYear) == Ok(list);
  }
}
