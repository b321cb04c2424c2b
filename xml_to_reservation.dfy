/** `src/lib/adapters/xml-to-reservation.ts`: the reservation lists of the
    `booking/read` answers, read from the compact XML tree into `Reservation`
    records with their rooms, guest and payment. */
module ReservationAdapter {
  import opened JsString
  import opened JsValue
  import opened Util

  // ---------------------------------------------------------------------
  // Field lists

  /** The room properties copied as text, and as numbers. */
  const RoomStrings: seq<string> := ["id", "roomLocatorId", "roomTypeId", "status", "remark", "mealPlan"]
  const RoomNumbers: seq<string> := ["adults", "children", "totalValue"]

  /** The properties the `Room` interface declares. */
  const RoomFields: seq<string> :=
    ["id", "roomLocatorId", "roomTypeId", "status", "arrivalDate", "departureDate", "adults", "children",
     "ageChildren", "totalValue", "mealPlan", "remark", "addons", "dailyRates", "guest"]

  /** The reservation properties copied as text, and as numbers. */
  const ReservationStrings: seq<string> :=
    ["hotelId", "portalId", "id", "status", "paymentType", "remark", "currencyCode", "locatorId", "collectType"]
  const ReservationNumbers: seq<string> := ["totalValue"]

  /** The properties the `Reservation` interface declares. */
  const ReservationFields: seq<string> :=
    ["hotelId", "portalId", "id", "status", "createDateTime", "cancellationDateTime", "paymentType", "remark",
     "currencyCode", "locatorId", "totalValue", "totalAddOns", "rooms", "guest", "payment", "collectType"]

  /** The guest properties kept by the reservation, all as text. */
  const GuestStrings: seq<string> :=
    ["firstName", "lastName", "email", "documentType", "documentNumber", "document", "phone"]

  /** The payment properties copied as text, and as numbers. */
  const PaymentStrings: seq<string> :=
    ["cardType", "cardNumber", "cardHolderName", "seriesCode", "expireDate", "authorizationCode"]
  const PaymentNumbers: seq<string> := ["prePaymentValue", "numberOfInstallments", "installmentValue"]

  const DefaultRootTag := "reservationRS"

  // ---------------------------------------------------------------------
  // Shared pieces

  /** `{...cloneXmlStrings(obj, strings), ...cloneXmlNumbers(obj, numbers)}`. */
  function Copied(obj: Value, strings: seq<string>, numbers: seq<string>): seq<(string, Value)>
    requires Plain(obj) && !obj.Undef?
  {
    PutAll(PutAll([], PickFields(obj, strings, AsStrings)), PickFields(obj, numbers, AsNumbers))
  }

  /** `obj.a && obj.a.b`, read as a condition. */
  predicate Nested(obj: Value, a: string, b: string)
    requires Plain(obj) && !obj.Undef?
  {
    var x := Get(obj, a);
    Truthy(x) && Truthy(Get(x, b))
  }

  // ---------------------------------------------------------------------
  // parseRoom

  /** One entry of `addons`: its name as text and its value as a number. */
  function AddonOf(addon: Value): Value
    requires Parsed(addon)
  {
    Obj([("name", Str(GetXmlString(Get(addon, "name")))), ("totalValue", GetXmlNumber(Get(addon, "totalValue")))])
  }

  /** One entry of `dailyRates`: its date through `strToDate` and its value as a number. */
  function DailyRateOf(rate: Value, currentYear: int): Value
    requires Parsed(rate)
  {
    Obj([("date", StrToDate(GetXmlString(Get(rate, "date")), currentYear)),
         ("totalValue", GetXmlNumber(Get(rate, "totalValue")))])
  }

  function Addons(list: seq<Value>): (r: seq<Value>)
    requires forall i :: 0 <= i < |list| ==> Parsed(list[i])
  {
    seq(|list|, i requires 0 <= i < |list| => AddonOf(list[i]))
  }

  function DailyRates(list: seq<Value>, currentYear: int): (r: seq<Value>)
    requires forall i :: 0 <= i < |list| ==> Parsed(list[i])
  {
    seq(|list|, i requires 0 <= i < |list| => DailyRateOf(list[i], currentYear))
  }

  /** `if (obj[key]) result[key] = strToDate(getXmlString(obj[key]))`. */
  function DateStep(obj: Value, key: string, currentYear: int): Assignment
    requires Parsed(obj)
  {
    var x := Get(obj, key);
    Assignment(key, Truthy(x), StrToDate(GetXmlString(x), currentYear))
  }

  function AgesStep(room: Value): Assignment
    requires Parsed(room)
  {
    var present := Nested(room, "ageChildren", "ageChild");
    Assignment("ageChildren", present,
               if present then Obj([("ageChild", GetXmlNumber(Get(Get(room, "ageChildren"), "ageChild")))]) else Undef)
  }

  function AddonsStep(room: Value): Assignment
    requires Parsed(room)
  {
    var present := Nested(room, "addons", "addon");
    Assignment("addons", present,
               if present then Arr(Addons(TransformToArray(Get(Get(room, "addons"), "addon")))) else Undef)
  }

  function DailyRatesStep(room: Value, currentYear: int): Assignment
    requires Parsed(room)
  {
    var present := Nested(room, "dailyRates", "dailyRate");
    Assignment("dailyRates", present,
               if present then Arr(DailyRates(TransformToArray(Get(Get(room, "dailyRates"), "dailyRate")), currentYear))
               else Undef)
  }

  /** The conditional assignments of `parseRoom`, in source order. */
  function RoomSteps(room: Value, currentYear: int): seq<Assignment>
    requires Parsed(room)
  {
    [DateStep(room, "arrivalDate", currentYear), DateStep(room, "departureDate", currentYear),
     AgesStep(room), AddonsStep(room), DailyRatesStep(room, currentYear), RoomGuestStep(room)]
  }

  /** `if (room.guest) result.guest = cloneXmlStrings(room.guest)`. */
  function RoomGuestStep(room: Value): Assignment
    requires Parsed(room)
  {
    var guest := Get(room, "guest");
    Assignment("guest", Truthy(guest), if Truthy(guest) then Obj(AllStrings(guest)) else Undef)
  }

  /** `parseRoom(room)`: the text and number fields, then each optional part
      whose source is present. */
  function RoomOf(room: Value, currentYear: int): Value
    requires Parsed(room)
  {
    Obj(RoomFieldsOf(room, currentYear))
  }

  /** The properties of `parseRoom(room)`, in order. */
  function RoomFieldsOf(room: Value, currentYear: int): seq<(string, Value)>
    requires Parsed(room)
  {
    Assign(Copied(room, RoomStrings, RoomNumbers), RoomSteps(room, currentYear))
  }

  /** `parseRoom` as the source runs it: two copies spread into `result`,
      then one guarded assignment after another. */
  method ParseRoom(room: Value, currentYear: int) returns (r: Value)
    requires Parsed(room)
    ensures r == RoomOf(room, currentYear)
  {
    var strings := CloneXml(room, Some(RoomStrings), AsStrings);
    var numbers := CloneXml(room, Some(RoomNumbers), AsNumbers);
    var r0 := PutAll(PutAll([], strings.value), numbers.value);
    var r1 := SetDate(r0, room, "arrivalDate", currentYear);
    var r2 := SetDate(r1, room, "departureDate", currentYear);
    var r3 := SetAges(r2, room);
    var r4 := SetAddons(r3, room);
    var r5 := SetDailyRates(r4, room, currentYear);
    var result := SetRoomGuest(r5, room);
    AssignSix(r0, DateStep(room, "arrivalDate", currentYear), DateStep(room, "departureDate", currentYear),
              AgesStep(room), AddonsStep(room), DailyRatesStep(room, currentYear), RoomGuestStep(room));
    r := Obj(result);
  }

  /** Lines 19-25: a date field, when present, read by `strToDate`. */
  method SetDate(result: seq<(string, Value)>, obj: Value, key: string, currentYear: int)
    returns (next: seq<(string, Value)>)
    requires Parsed(obj)
    ensures next == Perform(result, DateStep(obj, key, currentYear))
  {
    next := result;
    var x := Get(obj, key);
    if Truthy(x) {
      next := Put(result, key, StrToDate(GetXmlString(x), currentYear));
    }
  }

  method SetAges(result: seq<(string, Value)>, room: Value) returns (next: seq<(string, Value)>)
    requires Parsed(room)
    ensures next == Perform(result, AgesStep(room))
  {
    next := result;
    var ages := Get(room, "ageChildren");
    if Truthy(ages) && Truthy(Get(ages, "ageChild")) {
      next := Put(result, "ageChildren", Obj([("ageChild", GetXmlNumber(Get(ages, "ageChild")))]));
    }
  }

  method SetAddons(result: seq<(string, Value)>, room: Value) returns (next: seq<(string, Value)>)
    requires Parsed(room)
    ensures next == Perform(result, AddonsStep(room))
  {
    next := result;
    var addons := Get(room, "addons");
    if Truthy(addons) && Truthy(Get(addons, "addon")) {
      var list := TransformToArray(Get(addons, "addon"));
      next := Put(result, "addons", Arr(Addons(list)));
    }
  }

  method SetDailyRates(result: seq<(string, Value)>, room: Value, currentYear: int) returns (next: seq<(string, Value)>)
    requires Parsed(room)
    ensures next == Perform(result, DailyRatesStep(room, currentYear))
  {
    next := result;
    var rates := Get(room, "dailyRates");
    if Truthy(rates) && Truthy(Get(rates, "dailyRate")) {
      var list := TransformToArray(Get(rates, "dailyRate"));
      next := Put(result, "dailyRates", Arr(DailyRates(list, currentYear)));
    }
  }

  method SetRoomGuest(result: seq<(string, Value)>, room: Value) returns (next: seq<(string, Value)>)
    requires Parsed(room)
    ensures next == Perform(result, RoomGuestStep(room))
  {
    next := result;
    var guest := Get(room, "guest");
    if Truthy(guest) {
      var copy := CloneXml(guest, None, AsStrings);
      next := Put(result, "guest", Obj(copy.value));
    }
  }

  function Rooms(list: seq<Value>, currentYear: int): seq<Value>
    requires forall i :: 0 <= i < |list| ==> Parsed(list[i])
  {
    seq(|list|, i requires 0 <= i < |list| => RoomOf(list[i], currentYear))
  }

  // ---------------------------------------------------------------------
  // parseReservation

  /** The reservation's `guest`: the seven listed fields as text, and the
      address, all of its properties as text, when it is present. */
  function GuestOf(guest: Value): seq<(string, Value)>
    requires Parsed(guest)
  {
    var address := Get(guest, "address");
    PutIf(PutAll([], PickFields(guest, GuestStrings, AsStrings)), address, "address",
          if Truthy(address) then Obj(AllStrings(address)) else Undef)
  }

  /** The reservation's `payment`: text and number fields, and the
      pre-payment flag as a boolean when it is present. */
  function PaymentOf(payment: Value): seq<(string, Value)>
    requires Parsed(payment)
  {
    var charged := Get(payment, "prePaymentCharged");
    PutIf(Copied(payment, PaymentStrings, PaymentNumbers), charged, "prePaymentCharged", Bool(GetXmlBoolean(charged)))
  }

  /** The object literal that starts `parseReservation`: the text and number
      fields, and a first `guest` holding every guest property as text. */
  function ReservationBase(res: Value): seq<(string, Value)>
    requires Parsed(res)
  {
    var guest := Get(res, "guest");
    PutIf(Copied(res, ReservationStrings, ReservationNumbers), guest, "guest",
          if Truthy(guest) then Obj(AllStrings(guest)) else Undef)
  }

  /** `if (obj[key]) result[key] = new Date(getXmlString(obj[key]))`. */
  function DateTimeStep(obj: Value, key: string): Assignment
    requires Parsed(obj)
  {
    var x := Get(obj, key);
    Assignment(key, Truthy(x), DateVal(NewDate(Str(GetXmlString(x)))))
  }

  function RoomsStep(res: Value, currentYear: int): Assignment
    requires Parsed(res)
  {
    var present := Nested(res, "rooms", "room");
    Assignment("rooms", present,
               if present then Arr(Rooms(TransformToArray(Get(Get(res, "rooms"), "room")), currentYear)) else Undef)
  }

  function ReservationGuestStep(res: Value): Assignment
    requires Parsed(res)
  {
    var guest := Get(res, "guest");
    Assignment("guest", Truthy(guest), if Truthy(guest) then Obj(GuestOf(guest)) else Undef)
  }

  function PaymentStep(res: Value): Assignment
    requires Parsed(res)
  {
    var payment := Get(res, "payment");
    Assignment("payment", Truthy(payment), if Truthy(payment) then Obj(PaymentOf(payment)) else Undef)
  }

  /** The conditional assignments of `parseReservation`, in source order. */
  function ReservationSteps(res: Value, currentYear: int): seq<Assignment>
    requires Parsed(res)
  {
    [DateTimeStep(res, "createDateTime"), DateTimeStep(res, "cancellationDateTime"), RoomsStep(res, currentYear),
     ReservationGuestStep(res), PaymentStep(res)]
  }

  /** `parseReservation(reservation)`. */
  function ReservationOf(res: Value, currentYear: int): Value
    requires Parsed(res)
  {
    Obj(ReservationFieldsOf(res, currentYear))
  }

  /** The properties of `parseReservation(res)`, in order. */
  function ReservationFieldsOf(res: Value, currentYear: int): seq<(string, Value)>
    requires Parsed(res)
  {
    Assign(ReservationBase(res), ReservationSteps(res, currentYear))
  }

  /** `parseReservation` as the source runs it. */
  method ParseReservation(res: Value, currentYear: int) returns (r: Value)
    requires Parsed(res)
    ensures r == ReservationOf(res, currentYear)
  {
    var r0 := CopyReservation(res);
    var r1 := SetDateTime(r0, res, "createDateTime");
    var r2 := SetDateTime(r1, res, "cancellationDateTime");
    var r3 := SetRooms(r2, res, currentYear);
    var r4 := SetReservationGuest(r3, res);
    var result := SetPayment(r4, res);
    AssignFive(r0, DateTimeStep(res, "createDateTime"), DateTimeStep(res, "cancellationDateTime"),
               RoomsStep(res, currentYear), ReservationGuestStep(res), PaymentStep(res));
    r := Obj(result);
  }

  /** Lines 55-69: the listed strings and numbers, then a copy of the guest when present. */
  method CopyReservation(res: Value) returns (base: seq<(string, Value)>)
    requires Parsed(res)
    ensures base == ReservationBase(res)
  {
    var strings := CloneXml(res, Some(ReservationStrings), AsStrings);
    var numbers := CloneXml(res, Some(ReservationNumbers), AsNumbers);
    var guest := Get(res, "guest");
    var guestCopy := Undef;
    if Truthy(guest) {
      var copy := CloneXml(guest, None, AsStrings);
      guestCopy := Obj(copy.value);
    }
    base := PutIf(PutAll(PutAll([], strings.value), numbers.value), guest, "guest", guestCopy);
  }

  /** Lines 72-78: a date-time field, when present, given to `new Date`. */
  method SetDateTime(result: seq<(string, Value)>, obj: Value, key: string) returns (next: seq<(string, Value)>)
    requires Parsed(obj)
    ensures next == Perform(result, DateTimeStep(obj, key))
  {
    next := result;
    var x := Get(obj, key);
    if Truthy(x) {
      next := Put(result, key, DateVal(NewDate(Str(GetXmlString(x)))));
    }
  }

  /** Lines 80-83: each room parsed in turn, a single room counting as a list of one. */
  method SetRooms(result: seq<(string, Value)>, res: Value, currentYear: int) returns (next: seq<(string, Value)>)
    requires Parsed(res)
    ensures next == Perform(result, RoomsStep(res, currentYear))
  {
    next := result;
    var rooms := Get(res, "rooms");
    if Truthy(rooms) && Truthy(Get(rooms, "room")) {
      next := Put(result, "rooms", Arr(Rooms(TransformToArray(Get(rooms, "room")), currentYear)));
    }
  }

  /** Lines 86-99: the guest replaced by its listed fields and address. */
  method SetReservationGuest(result: seq<(string, Value)>, res: Value) returns (next: seq<(string, Value)>)
    requires Parsed(res)
    ensures next == Perform(result, ReservationGuestStep(res))
  {
    next := result;
    var guest := Get(res, "guest");
    if Truthy(guest) {
      var listed := CloneXml(guest, Some(GuestStrings), AsStrings);
      var address := Get(guest, "address");
      var addressCopy := Undef;
      if Truthy(address) {
        var copy := CloneXml(address, None, AsStrings);
        addressCopy := Obj(copy.value);
      }
      next := Put(result, "guest", Obj(PutIf(PutAll([], listed.value), address, "address", addressCopy)));
    }
  }

  /** Lines 102-117: the payment with its flag converted when present. */
  method SetPayment(result: seq<(string, Value)>, res: Value) returns (next: seq<(string, Value)>)
    requires Parsed(res)
    ensures next == Perform(result, PaymentStep(res))
  {
    next := result;
    var payment := Get(res, "payment");
    if Truthy(payment) {
      var strings := CloneXml(payment, Some(PaymentStrings), AsStrings);
      var numbers := CloneXml(payment, Some(PaymentNumbers), AsNumbers);
      var charged := Get(payment, "prePaymentCharged");
      next := Put(result, "payment",
                  Obj(PutIf(PutAll(PutAll([], strings.value), numbers.value), charged, "prePaymentCharged",
                            Bool(GetXmlBoolean(charged)))));
    }
  }

  /** The records of one element holding `reservation` children: none when
      there is no such child, else one per child, a single child counting as
      a list of one. */
  function ReservationList(parent: Value, currentYear: int): seq<Value>
    requires Parsed(parent)
  {
    var children := Get(parent, "reservation");
    if !Truthy(children) then [] else Reservations(TransformToArray(children), currentYear)
  }

  /** `reservationXMLList.map(parseReservation)`. */
  function Reservations(list: seq<Value>, currentYear: int): seq<Value>
    requires forall i :: 0 <= i < |list| ==> Parsed(list[i])
  {
    seq(|list|, i requires 0 <= i < |list| => ReservationOf(list[i], currentYear))
  }

  /** `xmlToReservation(xml, rootTag)`: reading `reservation` off a missing
      root element throws a TypeError; otherwise the reservations under it. */
  function XmlToReservation(xml: Value, rootTag: string, currentYear: int): (r: Result<seq<Value>>)
    requires Parsed(xml)
    ensures r.Throw? <==> Get(xml, rootTag).Undef?
    ensures r.Throw? ==> r.error == TypeError
    ensures !Get(xml, rootTag).Undef? && !Truthy(Get(Get(xml, rootTag), "reservation")) ==> r == Ok([])
  {
    var root := Get(xml, rootTag);
    if root.Undef? then Throw(TypeError) else Ok(ReservationList(root, currentYear))
  }

  /** The reservations of a list of `TReservationRS` elements, in order; the
      first missing element throws a TypeError when its `reservation` is read. */
  function OneCallReservations(items: seq<Value>, currentYear: int): (r: Result<seq<Value>>)
    requires forall i :: 0 <= i < |items| ==> items[i].Undef? || Parsed(items[i])
    ensures r.Ok? <==> forall i :: 0 <= i < |items| ==> !items[i].Undef?
    ensures r.Throw? ==> r.error == TypeError
    decreases |items|
  {
    if |items| == 0 then Ok([])
    else
      var init := items[..|items| - 1];
      var acc := OneCallReservations(init, currentYear);
      GatherOk(items, init, acc);
      Gather(acc, items[|items| - 1], currentYear)
  }

  /** One more element visited by the `forEach`. */
  function Gather(acc: Result<seq<Value>>, item: Value, currentYear: int): Result<seq<Value>>
    requires item.Undef? || Parsed(item)
  {
    match acc
    case Throw(e) => Throw(e)
    case Ok(found) => if item.Undef? then Throw(TypeError) else Ok(found + ReservationList(item, currentYear))
  }

  lemma GatherOk(items: seq<Value>, init: seq<Value>, acc: Result<seq<Value>>)
    requires |items| > 0 && init == items[..|items| - 1]
    requires acc.Ok? <==> forall i :: 0 <= i < |init| ==> !init[i].Undef?
    ensures (acc.Ok? && !items[|items| - 1].Undef?) <==> forall i :: 0 <= i < |items| ==> !items[i].Undef?
  {
    assert forall i :: 0 <= i < |init| ==> init[i] == items[i];
  }

  /** `xmlOneCallToReservation(xml)`: a TypeError when `ArrayOfTReservationRS`
      or its `TReservationRS` is missing (the latter makes a list holding
      `undefined`), else the reservations of every element in order. */
  function OneCallOf(xml: Value, currentYear: int): (r: Result<seq<Value>>)
    requires Parsed(xml)
    ensures r.Throw? <==> Get(xml, "ArrayOfTReservationRS").Undef?
                          || Get(Get(xml, "ArrayOfTReservationRS"), "TReservationRS").Undef?
    ensures r.Throw? ==> r.error == TypeError
  {
    var envelope := Get(xml, "ArrayOfTReservationRS");
    if envelope.Undef? then Throw(TypeError)
    else
      var node := Get(envelope, "TReservationRS");
      var list := TransformToArray(node);
      assert node.Undef? ==> list[0].Undef?;
      OneCallReservations(list, currentYear)
  }

  /** `xmlOneCallToReservation` as the source runs it: a `forEach` pushing
      each element's reservations onto `result`. */
  method XmlOneCallToReservation(xml: Value, currentYear: int) returns (r: Result<seq<Value>>)
    requires Parsed(xml)
    ensures r == OneCallOf(xml, currentYear)
  {
    var envelope := Get(xml, "ArrayOfTReservationRS");
    if envelope.Undef? {
      return Throw(TypeError);
    }
    var list := TransformToArray(Get(envelope, "TReservationRS"));
    var result: seq<Value> := [];
    for i := 0 to |list|
      invariant OneCallReservations(list[..i], currentYear) == Ok(result)
    {
      GatherStep(list, i, currentYear, result);
      var item := list[i];
      if item.Undef? {
        return Throw(TypeError);
      }
      // `if (item.reservation) result.push(...)`: the list is empty without children
      result := result + ReservationList(item, currentYear);
    }
    assert list[..|list|] == list;
    return Ok(result);
  }

  /** One more element of the list visited; a missing one fails the whole list. */
  lemma GatherStep(list: seq<Value>, i: nat, currentYear: int, result: seq<Value>)
    requires forall j :: 0 <= j < |list| ==> list[j].Undef? || Parsed(list[j])
    requires i < |list| && OneCallReservations(list[..i], currentYear) == Ok(result)
    ensures list[i].Undef? ==> OneCallReservations(list, currentYear) == Throw(TypeError)
    ensures !list[i].Undef?
        ==> OneCallReservations(list[..i + 1], currentYear) == Ok(result + ReservationList(list[i], currentYear))
  {
    assert list[..i + 1][..i] == list[..i];
  }

  /** The elements' reservations are concatenated: splitting the element list
      splits the result. */
  lemma {:induction false} OneCallAppend(a: seq<Value>, b: seq<Value>, currentYear: int)
    requires forall i :: 0 <= i < |a| ==> Parsed(a[i])
    requires forall i :: 0 <= i < |b| ==> Parsed(b[i])
    ensures OneCallReservations(a, currentYear).Ok? && OneCallReservations(b, currentYear).Ok?
    ensures OneCallReservations(a + b, currentYear).Ok?
    ensures OneCallReservations(a + b, currentYear).value
         == OneCallReservations(a, currentYear).value + OneCallReservations(b, currentYear).value
    decreases |b|
  {
    if |b| == 0 {
      assert a + b == a;
    } else {
      var init := b[..|b| - 1];
      var last := b[|b| - 1];
      assert (a + b)[..|a + b| - 1] == a + init;
      assert (a + b)[|a + b| - 1] == last;
      OneCallAppend(a, init, currentYear);
      SeqAppendAssoc(OneCallReservations(a, currentYear).value, OneCallReservations(init, currentYear).value,
                     ReservationList(last, currentYear));
    }
  }

  /** With a single `TReservationRS` element the one-call answer is what
      `xmlToReservation` gives for a document whose root is that element. */
  lemma OneCallSingle(xml: Value, doc: Value, rootTag: string, currentYear: int)
    requires Parsed(xml) && Parsed(doc)
    requires !Get(xml, "ArrayOfTReservationRS").Undef?
    requires Get(Get(xml, "ArrayOfTReservationRS"), "TReservationRS") == Get(doc, rootTag)
    requires !Get(doc, rootTag).Undef? && !Get(doc, rootTag).Arr?
    ensures OneCallOf(xml, currentYear) == XmlToReservation(doc, rootTag, currentYear)
  {
    var node := Get(doc, rootTag);
    assert [node][..0] == [];
    assert OneCallReservations([], currentYear) == Ok([]);
    assert [] + ReservationList(node, currentYear) == ReservationList(node, currentYear);
  }

  /** A list of `reservation` entries gives one record per entry, in order,
      each read by `parseReservation`. */
  lemma ReservationEntries(xml: Value, rootTag: string, currentYear: int)
    requires Parsed(xml) && !Get(xml, rootTag).Undef? && Truthy(Get(Get(xml, rootTag), "reservation"))
    ensures var list := TransformToArray(Get(Get(xml, rootTag), "reservation"));
      var r := XmlToReservation(xml, rootTag, currentYear);
      && r.Ok? && |r.value| == |list|
      && forall i :: 0 <= i < |list| ==> r.value[i] == ReservationOf(list[i], currentYear)
  {
    var list := TransformToArray(Get(Get(xml, rootTag), "reservation"));
    assert XmlToReservation(xml, rootTag, currentYear) == Ok(Reservations(list, currentYear));
  }

  /** A single `reservation` entry, not wrapped in a list, gives a list of
      one record. */
  lemma ReservationSingle(xml: Value, rootTag: string, currentYear: int)
    requires Parsed(xml) && !Get(xml, rootTag).Undef? && Get(Get(xml, rootTag), "reservation").Obj?
    ensures XmlToReservation(xml, rootTag, currentYear)
         == Ok([ReservationOf(Get(Get(xml, rootTag), "reservation"), currentYear)])
  {
    var node := Get(Get(xml, rootTag), "reservation");
    assert TransformToArray(node) == [node];
    var records := Reservations([node], currentYear);
    assert |records| == 1 && records[0] == ReservationOf(node, currentYear);
    assert records == [ReservationOf(node, currentYear)];
  }

  /** A OneCall element without `reservation` children adds nothing to the
      reservations gathered so far. */
  lemma OneCallSkips(items: seq<Value>, item: Value, currentYear: int)
    requires forall i :: 0 <= i < |items| ==> items[i].Undef? || Parsed(items[i])
    requires Parsed(item) && !Truthy(Get(item, "reservation"))
    ensures forall i :: 0 <= i < |items + [item]| ==> (items + [item])[i].Undef? || Parsed((items + [item])[i])
    ensures OneCallReservations(items + [item], currentYear) == OneCallReservations(items, currentYear)
  {
    var all := items + [item];
    assert all[..|all| - 1] == items;
    assert all[|all| - 1] == item;
    match OneCallReservations(items, currentYear)
    case Throw(e) =>
    case Ok(found) => assert found + [] == found;
  }

  // ---------------------------------------------------------------------
  // What the copies hold

  /** The spread of a text copy and a number copy holds exactly the listed
      properties the object owns: the number reading wins for a property in
      both lists, the text reading applies otherwise. */
  lemma CopiedField(obj: Value, strings: seq<string>, numbers: seq<string>, k: string)
    requires Plain(obj) && !obj.Undef?
    ensures k in Keys(Copied(obj, strings, numbers)) <==> (k in strings || k in numbers) && Has(obj, k)
    ensures k in numbers && Has(obj, k) ==> Lookup(Copied(obj, strings, numbers), k) == GetXmlNumber(Get(obj, k))
    ensures k in strings && k !in numbers && Has(obj, k)
         ==> Lookup(Copied(obj, strings, numbers), k) == Str(GetXmlString(Get(obj, k)))
  {
    var text := PickFields(obj, strings, AsStrings);
    var nums := PickFields(obj, numbers, AsNumbers);
    if k in numbers && Has(obj, k) {
      PutAllLookup(PutAll([], text), nums, k);
    } else if k in strings && Has(obj, k) {
      PutAllLookup([], text, k);
    }
  }

  /** The spread of the two copies never holds a property twice. */
  lemma CopiedDistinct(obj: Value, strings: seq<string>, numbers: seq<string>)
    requires Plain(obj) && !obj.Undef?
    ensures DistinctKeys(Copied(obj, strings, numbers))
  {
    var text := PickFields(obj, strings, AsStrings);
    PutAllDistinct([], text);
    PutAllDistinct(PutAll([], text), PickFields(obj, numbers, AsNumbers));
  }

  // ---------------------------------------------------------------------
  // What a parsed room holds

  /** The properties the guarded assignments of `parseRoom` set, in order. */
  const RoomStepKeys: seq<string> := ["arrivalDate", "departureDate", "ageChildren", "addons", "dailyRates", "guest"]

  lemma RoomKeysApart()
    ensures Distinct(RoomStepKeys)
    ensures forall k :: k in RoomStepKeys ==> k !in RoomStrings && k !in RoomNumbers
    ensures forall k :: k in RoomStrings ==> k !in RoomNumbers
  {
  }

  lemma RoomStepKeysOf(room: Value, currentYear: int)
    requires Parsed(room)
    ensures StepKeys(RoomSteps(room, currentYear)) == RoomStepKeys
  {
    RoomStepKeysAt(room, currentYear);
  }

  lemma RoomStepKeysAt(room: Value, currentYear: int)
    requires Parsed(room)
    ensures var s := RoomSteps(room, currentYear);
      && |s| == 6 && s[0].key == "arrivalDate" && s[1].key == "departureDate" && s[2].key == "ageChildren"
      && s[3].key == "addons" && s[4].key == "dailyRates" && s[5].key == "guest"
  {
    RoomStepsListed(room, currentYear);
    RoomStepKeyEach(room, currentYear);
  }

  lemma RoomStepsListed(room: Value, currentYear: int)
    requires Parsed(room)
    ensures RoomSteps(room, currentYear)
         == [DateStep(room, "arrivalDate", currentYear), DateStep(room, "departureDate", currentYear), AgesStep(room),
             AddonsStep(room), DailyRatesStep(room, currentYear), RoomGuestStep(room)]
  {
  }

  lemma RoomStepKeyEach(room: Value, currentYear: int)
    requires Parsed(room)
    ensures DateStep(room, "arrivalDate", currentYear).key == "arrivalDate"
    ensures DateStep(room, "departureDate", currentYear).key == "departureDate"
    ensures AgesStep(room).key == "ageChildren" && AddonsStep(room).key == "addons"
    ensures DailyRatesStep(room, currentYear).key == "dailyRates" && RoomGuestStep(room).key == "guest"
  {
  }

  /** The spread of the two copies only holds listed properties. */
  lemma CopiedWithin(obj: Value, strings: seq<string>, numbers: seq<string>)
    requires Plain(obj) && !obj.Undef?
    ensures forall k :: k in Keys(Copied(obj, strings, numbers)) ==> k in strings || k in numbers
  {
  }

  /** The guarded assignment at `j` alone decides its property of the room. */
  lemma RoomStep(room: Value, currentYear: int, j: nat)
    requires Parsed(room) && j < 6
    ensures RoomStepKeys[j] in Keys(RoomFieldsOf(room, currentYear)) <==> RoomSteps(room, currentYear)[j].cond
    ensures RoomSteps(room, currentYear)[j].cond
         ==> Lookup(RoomFieldsOf(room, currentYear), RoomStepKeys[j]) == RoomSteps(room, currentYear)[j].value
  {
    var steps := RoomSteps(room, currentYear);
    var base := Copied(room, RoomStrings, RoomNumbers);
    var k := RoomStepKeys[j];
    RoomStepKeysOf(room, currentYear);
    RoomKeysApart();
    CopiedWithin(room, RoomStrings, RoomNumbers);
    assert steps[j].key == k && k in RoomStepKeys;
    assert k !in Keys(base);
    AssignAtFresh(base, steps, j);
  }

  /** A room has only properties the `Room` interface declares, each once. */
  lemma RoomShape(room: Value, currentYear: int)
    requires Parsed(room)
    ensures forall k :: k in Keys(RoomFieldsOf(room, currentYear)) ==> k in RoomFields
    ensures DistinctKeys(RoomFieldsOf(room, currentYear))
  {
    var base := Copied(room, RoomStrings, RoomNumbers);
    var steps := RoomSteps(room, currentYear);
    RoomStepKeysOf(room, currentYear);
    AssignWithin(base, steps);
    CopiedWithin(room, RoomStrings, RoomNumbers);
    CopiedDistinct(room, RoomStrings, RoomNumbers);
    AssignDistinct(base, steps);
  }

  /** A property no guarded assignment of `parseRoom` sets is as the two copies left it. */
  lemma RoomOther(room: Value, currentYear: int, k: string)
    requires Parsed(room) && k !in RoomStepKeys
    ensures k in Keys(RoomFieldsOf(room, currentYear)) <==> k in Keys(Copied(room, RoomStrings, RoomNumbers))
    ensures Lookup(RoomFieldsOf(room, currentYear), k) == Lookup(Copied(room, RoomStrings, RoomNumbers), k)
  {
    RoomStepKeysOf(room, currentYear);
    AssignOther(Copied(room, RoomStrings, RoomNumbers), RoomSteps(room, currentYear), k);
  }

  /** Lines 13-16: the listed text and number fields are present exactly when
      the XML element owns them, read as text and as numbers. */
  lemma RoomCopiedFields(room: Value, currentYear: int, k: string)
    requires Parsed(room) && (k in RoomStrings || k in RoomNumbers)
    ensures k in Keys(RoomFieldsOf(room, currentYear)) <==> Has(room, k)
    ensures Has(room, k) && k in RoomStrings
         ==> Lookup(RoomFieldsOf(room, currentYear), k) == Str(GetXmlString(Get(room, k)))
    ensures Has(room, k) && k in RoomNumbers
         ==> Lookup(RoomFieldsOf(room, currentYear), k) == GetXmlNumber(Get(room, k))
  {
    RoomKeysApart();
    RoomOther(room, currentYear, k);
    CopiedField(room, RoomStrings, RoomNumbers, k);
  }

  /** Lines 19-25: arrival and departure are present exactly when the XML
      has them (a non-empty value), and are then read by `strToDate`. */
  lemma RoomDates(room: Value, currentYear: int, key: string)
    requires Parsed(room) && (key == "arrivalDate" || key == "departureDate")
    ensures key in Keys(RoomFieldsOf(room, currentYear)) <==> Truthy(Get(room, key))
    ensures Truthy(Get(room, key))
         ==> Lookup(RoomFieldsOf(room, currentYear), key) == StrToDate(GetXmlString(Get(room, key)), currentYear)
  {
    RoomStep(room, currentYear, if key == "arrivalDate" then 0 else 1);
  }

  /** Lines 27-29: the children's ages only when both levels are present, as a number. */
  lemma RoomAges(room: Value, currentYear: int)
    requires Parsed(room)
    ensures "ageChildren" in Keys(RoomFieldsOf(room, currentYear)) <==> Nested(room, "ageChildren", "ageChild")
    ensures Nested(room, "ageChildren", "ageChild")
         ==> Lookup(RoomFieldsOf(room, currentYear), "ageChildren")
             == Obj([("ageChild", GetXmlNumber(Get(Get(room, "ageChildren"), "ageChild")))])
  {
    RoomStep(room, currentYear, 2);
  }

  /** Lines 31-37: one add-on per `addon` element in document order (a single
      element counts as a list of one, see `TransformToArray`). */
  lemma RoomAddons(room: Value, currentYear: int)
    requires Parsed(room)
    ensures "addons" in Keys(RoomFieldsOf(room, currentYear)) <==> Nested(room, "addons", "addon")
    ensures Nested(room, "addons", "addon") ==>
      var xml := TransformToArray(Get(Get(room, "addons"), "addon"));
      var addons := Lookup(RoomFieldsOf(room, currentYear), "addons");
      && addons.Arr? && |addons.items| == |xml|
      && forall i :: 0 <= i < |xml| ==> addons.items[i] == AddonOf(xml[i])
  {
    RoomStep(room, currentYear, 3);
  }

  /** Lines 39-45: one daily rate per `dailyRate` element in document order,
      each date read by `strToDate`. */
  lemma RoomDailyRates(room: Value, currentYear: int)
    requires Parsed(room)
    ensures "dailyRates" in Keys(RoomFieldsOf(room, currentYear)) <==> Nested(room, "dailyRates", "dailyRate")
    ensures Nested(room, "dailyRates", "dailyRate") ==>
      var xml := TransformToArray(Get(Get(room, "dailyRates"), "dailyRate"));
      var rates := Lookup(RoomFieldsOf(room, currentYear), "dailyRates");
      && rates.Arr? && |rates.items| == |xml|
      && forall i :: 0 <= i < |xml| ==> rates.items[i] == DailyRateOf(xml[i], currentYear)
  {
    RoomStep(room, currentYear, 4);
  }

  /** An entry of `dailyRates` holds the date read by `strToDate` and the value as a number. */
  lemma DailyRateFields(rate: Value, currentYear: int)
    requires Parsed(rate)
    ensures Keys(DailyRateOf(rate, currentYear).fields) == ["date", "totalValue"]
    ensures Lookup(DailyRateOf(rate, currentYear).fields, "date") == StrToDate(GetXmlString(Get(rate, "date")), currentYear)
    ensures Lookup(DailyRateOf(rate, currentYear).fields, "totalValue") == GetXmlNumber(Get(rate, "totalValue"))
  {
    LookupCons(DailyRateOf(rate, currentYear).fields);
  }

  /** Lines 47-49: the room's guest, when present, is `cloneXmlStrings` of its XML element. */
  lemma RoomGuest(room: Value, currentYear: int)
    requires Parsed(room)
    ensures "guest" in Keys(RoomFieldsOf(room, currentYear)) <==> Truthy(Get(room, "guest"))
    ensures Truthy(Get(room, "guest"))
         ==> Lookup(RoomFieldsOf(room, currentYear), "guest") == Obj(AllStrings(Get(room, "guest")))
  {
    RoomStep(room, currentYear, 5);
  }

  // ---------------------------------------------------------------------
  // What a parsed reservation holds

  /** The properties the guarded assignments of `parseReservation` set, in order. */
  const ReservationStepKeys: seq<string> := ["createDateTime", "cancellationDateTime", "rooms", "guest", "payment"]

  /** The properties the object literal of `parseReservation` may set. */
  const ReservationBaseKeys: seq<string> := ReservationStrings + ReservationNumbers + ["guest"]

  lemma ReservationKeysApart()
    ensures forall a, b :: 0 <= a < b < |ReservationStepKeys| ==> ReservationStepKeys[a] != ReservationStepKeys[b]
    ensures forall j :: 0 <= j < |ReservationStepKeys| && j != 3 ==> ReservationStepKeys[j] !in ReservationBaseKeys
    ensures ReservationStepKeys[3] == "guest"
  {
  }

  lemma ReservationKeysAllowed()
    ensures forall k :: k in ReservationBaseKeys ==> k in ReservationFields
    ensures forall k :: k in ReservationStepKeys ==> k in ReservationFields
    ensures forall k :: k in ReservationStrings ==> k !in ReservationNumbers
    ensures forall k :: k in ReservationStrings || k in ReservationNumbers ==> k !in ReservationStepKeys
  {
  }

  lemma ReservationStepKeysOf(res: Value, currentYear: int)
    requires Parsed(res)
    ensures StepKeys(ReservationSteps(res, currentYear)) == ReservationStepKeys
  {
    ReservationStepKeysAt(res, currentYear);
  }

  lemma ReservationStepKeysAt(res: Value, currentYear: int)
    requires Parsed(res)
    ensures var s := ReservationSteps(res, currentYear);
      && |s| == 5 && s[0].key == "createDateTime" && s[1].key == "cancellationDateTime" && s[2].key == "rooms"
      && s[3].key == "guest" && s[4].key == "payment"
  {
    ReservationStepsListed(res, currentYear);
    ReservationStepKeyEach(res, currentYear);
  }

  lemma ReservationStepsListed(res: Value, currentYear: int)
    requires Parsed(res)
    ensures ReservationSteps(res, currentYear)
         == [DateTimeStep(res, "createDateTime"), DateTimeStep(res, "cancellationDateTime"), RoomsStep(res, currentYear),
             ReservationGuestStep(res), PaymentStep(res)]
  {
  }

  lemma ReservationStepKeyEach(res: Value, currentYear: int)
    requires Parsed(res)
    ensures DateTimeStep(res, "createDateTime").key == "createDateTime"
    ensures DateTimeStep(res, "cancellationDateTime").key == "cancellationDateTime"
    ensures RoomsStep(res, currentYear).key == "rooms" && ReservationGuestStep(res).key == "guest"
    ensures PaymentStep(res).key == "payment"
  {
  }

  /** The object literal holds the listed fields and, at most, the guest, each once. */
  lemma BaseWithin(res: Value)
    requires Parsed(res)
    ensures forall k :: k in Keys(ReservationBase(res)) ==> k in ReservationBaseKeys
    ensures "guest" in Keys(ReservationBase(res)) <==> Truthy(Get(res, "guest"))
    ensures DistinctKeys(ReservationBase(res))
  {
    var copied := Copied(res, ReservationStrings, ReservationNumbers);
    CopiedIn(res, ReservationStrings, ReservationNumbers, ["guest"]);
    GuestNotCopied();
    CopiedDistinct(res, ReservationStrings, ReservationNumbers);
    var guest := Get(res, "guest");
    if Truthy(guest) {
      PutDistinct(copied, "guest", Obj(AllStrings(guest)));
    }
  }

  lemma GuestNotCopied()
    ensures "guest" !in ReservationStrings + ReservationNumbers
    ensures "guest" in ReservationBaseKeys
  {
  }

  /** `CopiedWithin`, with the two lists followed by `extra`. */
  lemma CopiedIn(obj: Value, strings: seq<string>, numbers: seq<string>, extra: seq<string>)
    requires Plain(obj) && !obj.Undef?
    ensures forall k :: k in Keys(Copied(obj, strings, numbers)) ==> k in strings + numbers + extra
    ensures forall k :: k !in strings + numbers ==> k !in Keys(Copied(obj, strings, numbers))
  {
    CopiedWithin(obj, strings, numbers);
  }

  /** A guarded assignment of `parseReservation` other than the guest's
      alone decides its property. */
  lemma ReservationStep(res: Value, currentYear: int, j: nat)
    requires Parsed(res) && j < 5 && j != 3
    ensures ReservationStepKeys[j] in Keys(ReservationFieldsOf(res, currentYear))
        <==> ReservationSteps(res, currentYear)[j].cond
    ensures ReservationSteps(res, currentYear)[j].cond
         ==> Lookup(ReservationFieldsOf(res, currentYear), ReservationStepKeys[j])
             == ReservationSteps(res, currentYear)[j].value
  {
    ReservationStepKeysOf(res, currentYear);
    ReservationKeysApart();
    BaseWithin(res);
    AssignAtKey(ReservationBase(res), ReservationSteps(res, currentYear), ReservationStepKeys, j);
  }

  /** A reservation has only properties the `Reservation` interface declares, each once. */
  lemma ReservationShape(res: Value, currentYear: int)
    requires Parsed(res)
    ensures forall k :: k in Keys(ReservationFieldsOf(res, currentYear)) ==> k in ReservationFields
    ensures DistinctKeys(ReservationFieldsOf(res, currentYear))
  {
    ReservationStepKeysOf(res, currentYear);
    ReservationKeysAllowed();
    BaseWithin(res);
    AssignShape(ReservationBase(res), ReservationSteps(res, currentYear), ReservationFields);
  }

  /** Lines 55-67: the listed text and number fields are present exactly when
      the XML element owns them, read as text and as numbers. */
  lemma ReservationCopiedFields(res: Value, currentYear: int, k: string)
    requires Parsed(res) && (k in ReservationStrings || k in ReservationNumbers)
    ensures k in Keys(ReservationFieldsOf(res, currentYear)) <==> Has(res, k)
    ensures Has(res, k) && k in ReservationStrings
         ==> Lookup(ReservationFieldsOf(res, currentYear), k) == Str(GetXmlString(Get(res, k)))
    ensures Has(res, k) && k in ReservationNumbers
         ==> Lookup(ReservationFieldsOf(res, currentYear), k) == GetXmlNumber(Get(res, k))
  {
    var copied := Copied(res, ReservationStrings, ReservationNumbers);
    var guest := Get(res, "guest");
    ReservationKeysAllowed();
    ReservationStepKeysOf(res, currentYear);
    GuestNotCopied();
    CopiedIn(res, ReservationStrings, ReservationNumbers, ["guest"]);
    PutIfFresh(copied, guest, "guest", if Truthy(guest) then Obj(AllStrings(guest)) else Undef);
    AssignOther(ReservationBase(res), ReservationSteps(res, currentYear), k);
    CopiedField(res, ReservationStrings, ReservationNumbers, k);
  }

  /** Lines 72-78: creation and cancellation times are present exactly when
      the XML has them, and are then handed to `new Date` as text. */
  lemma ReservationDates(res: Value, currentYear: int, key: string)
    requires Parsed(res) && (key == "createDateTime" || key == "cancellationDateTime")
    ensures key in Keys(ReservationFieldsOf(res, currentYear)) <==> Truthy(Get(res, key))
    ensures Truthy(Get(res, key))
         ==> Lookup(ReservationFieldsOf(res, currentYear), key) == DateVal(NewDate(Str(GetXmlString(Get(res, key)))))
  {
    ReservationStep(res, currentYear, if key == "createDateTime" then 0 else 1);
  }

  /** Lines 80-83: one parsed room per `room` element in document order. */
  lemma ReservationRooms(res: Value, currentYear: int)
    requires Parsed(res)
    ensures "rooms" in Keys(ReservationFieldsOf(res, currentYear)) <==> Nested(res, "rooms", "room")
    ensures Nested(res, "rooms", "room") ==>
      var xml := TransformToArray(Get(Get(res, "rooms"), "room"));
      var rooms := Lookup(ReservationFieldsOf(res, currentYear), "rooms");
      && rooms.Arr? && |rooms.items| == |xml|
      && forall i :: 0 <= i < |xml| ==> rooms.items[i] == RoomOf(xml[i], currentYear)
  {
    ReservationStep(res, currentYear, 2);
  }

  /** Lines 68 and 86-99: the guest copied whole by the object literal is
      replaced by one holding only the listed fields and the address. */
  lemma ReservationGuest(res: Value, currentYear: int)
    requires Parsed(res)
    ensures "guest" in Keys(ReservationFieldsOf(res, currentYear)) <==> Truthy(Get(res, "guest"))
    ensures Truthy(Get(res, "guest"))
         ==> Lookup(ReservationFieldsOf(res, currentYear), "guest") == Obj(GuestOf(Get(res, "guest")))
  {
    ReservationStepKeysOf(res, currentYear);
    ReservationKeysApart();
    BaseWithin(res);
    AssignAtKey(ReservationBase(res), ReservationSteps(res, currentYear), ReservationStepKeys, 3);
  }

  /** Lines 102-117: the payment is present exactly when the XML has one. */
  lemma ReservationPayment(res: Value, currentYear: int)
    requires Parsed(res)
    ensures "payment" in Keys(ReservationFieldsOf(res, currentYear)) <==> Truthy(Get(res, "payment"))
    ensures Truthy(Get(res, "payment"))
         ==> Lookup(ReservationFieldsOf(res, currentYear), "payment") == Obj(PaymentOf(Get(res, "payment")))
  {
    ReservationStep(res, currentYear, 4);
  }

  /** Lines 87-98: the reservation's guest holds the seven listed fields the
      element owns, as text, and the address exactly when it is present,
      with all of its properties as text; nothing else. */
  lemma GuestFields(guest: Value)
    requires Parsed(guest)
    ensures forall k :: k in Keys(GuestOf(guest)) ==> k in GuestStrings || k == "address"
    ensures forall k :: k in GuestStrings ==> (k in Keys(GuestOf(guest)) <==> Has(guest, k))
    ensures forall k :: k in GuestStrings && Has(guest, k) ==> Lookup(GuestOf(guest), k) == Str(GetXmlString(Get(guest, k)))
    ensures "address" in Keys(GuestOf(guest)) <==> Truthy(Get(guest, "address"))
    ensures Truthy(Get(guest, "address")) ==> Lookup(GuestOf(guest), "address") == Obj(AllStrings(Get(guest, "address")))
  {
    var listed := PickFields(guest, GuestStrings, AsStrings);
    assert "address" !in GuestStrings;
    forall k | k in GuestStrings && Has(guest, k)
      ensures Lookup(PutAll([], listed), k) == Str(GetXmlString(Get(guest, k)))
    {
      PutAllLookup([], listed, k);
    }
  }

  /** Lines 103-116: the payment holds the listed text and number fields the
      element owns, read as text and as numbers, and nothing else but the
      pre-payment flag. */
  lemma PaymentCopied(payment: Value)
    requires Parsed(payment)
    ensures forall k :: k in Keys(PaymentOf(payment)) ==> k in PaymentStrings + PaymentNumbers + ["prePaymentCharged"]
    ensures forall k :: k in PaymentStrings || k in PaymentNumbers ==> (k in Keys(PaymentOf(payment)) <==> Has(payment, k))
    ensures forall k :: k in PaymentStrings && Has(payment, k)
              ==> Lookup(PaymentOf(payment), k) == Str(GetXmlString(Get(payment, k)))
    ensures forall k :: k in PaymentNumbers && Has(payment, k)
              ==> Lookup(PaymentOf(payment), k) == GetXmlNumber(Get(payment, k))
  {
    var copied := Copied(payment, PaymentStrings, PaymentNumbers);
    PaymentKeysApart();
    CopiedIn(payment, PaymentStrings, PaymentNumbers, ["prePaymentCharged"]);
    CopiedFields(payment, PaymentStrings, PaymentNumbers);
    var charged := Get(payment, "prePaymentCharged");
    PutIfFresh(copied, charged, "prePaymentCharged", Bool(GetXmlBoolean(charged)));
  }

  /** Lines 113-115: `prePaymentCharged` is a boolean, present exactly when
      the element has a non-empty one. */
  lemma PaymentCharged(payment: Value)
    requires Parsed(payment)
    ensures "prePaymentCharged" in Keys(PaymentOf(payment)) <==> Truthy(Get(payment, "prePaymentCharged"))
    ensures Truthy(Get(payment, "prePaymentCharged"))
         ==> Lookup(PaymentOf(payment), "prePaymentCharged") == Bool(GetXmlBoolean(Get(payment, "prePaymentCharged")))
  {
    PaymentKeysApart();
    CopiedIn(payment, PaymentStrings, PaymentNumbers, ["prePaymentCharged"]);
  }

  lemma PaymentKeysApart()
    ensures "prePaymentCharged" !in PaymentStrings + PaymentNumbers
    ensures forall k :: k in PaymentStrings ==> k !in PaymentNumbers
  {
  }

  /** `CopiedField` for every property at once. */
  lemma CopiedFields(obj: Value, strings: seq<string>, numbers: seq<string>)
    requires Plain(obj) && !obj.Undef?
    ensures forall k :: k in strings || k in numbers ==> (k in Keys(Copied(obj, strings, numbers)) <==> Has(obj, k))
    ensures forall k :: k in numbers && Has(obj, k) ==> Lookup(Copied(obj, strings, numbers), k) == GetXmlNumber(Get(obj, k))
    ensures forall k :: k in strings && k !in numbers && Has(obj, k)
              ==> Lookup(Copied(obj, strings, numbers), k) == Str(GetXmlString(Get(obj, k)))
  {
    forall k
      ensures k in strings || k in numbers ==> (k in Keys(Copied(obj, strings, numbers)) <==> Has(obj, k))
      ensures k in numbers && Has(obj, k) ==> Lookup(Copied(obj, strings, numbers), k) == GetXmlNumber(Get(obj, k))
      ensures k in strings && k !in numbers && Has(obj, k)
              ==> Lookup(Copied(obj, strings, numbers), k) == Str(GetXmlString(Get(obj, k)))
    {
      CopiedField(obj, strings, numbers, k);
    }
  }
}
