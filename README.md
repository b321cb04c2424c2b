# hunit-js in Dafny

A model of the HUnit channel-manager client library (hunit-js) and proofs about it.

The library talks to the HUnit hotel extranet with XML over HTTPS. It has two clients.

- The TypeScript `HUnitClient` (`src/lib/hunit-client.ts`) works on the compact object tree that xml-js makes of an XML document. It does three things:
  - builds a request tree with the hotel's credentials;
  - checks an answer for an `errors` element;
  - turns each answer into typed records through the adapters under `src/lib/adapters` and the helpers of `src/lib/util.ts`.
- The legacy `HUnitClient` (`hunit.client.js`) builds its requests as strings, by concatenation.

The project has one Dafny module per source file. Two more modules model the JavaScript runtime the code relies on.

| file | module | models |
|---|---|---|
| `jsstring.dfy` | `JsString` | the string built-ins used: `indexOf`, `replace` with a string pattern, `split`, `trim`, case mapping, number to text |
| `jsvalue.dfy` | `JsValue` | JavaScript values as the code sees them. It covers property read, own-property test, `Object.keys`, assignment and object spread, with keys in insertion order (integer-like keys are not moved first; see Left out). |
| `util.dfy` | `Util` | `src/lib/util.ts` |
| `xml_to_reservation.dfy` | `ReservationAdapter` | `src/lib/adapters/xml-to-reservation.ts` |
| `xml_to_portal.dfy` | `PortalAdapter` | `src/lib/adapters/xml-to-portal.ts` |
| `inventory_to_xml.dfy` | `InventoryAdapter` | `src/lib/adapters/inventory-to-xml.ts` |
| `hunit_client.dfy` | `Client` | the pure parts of `src/lib/hunit-client.ts` |
| `legacy_client.dfy` | `LegacyClient` | `hunit.client.js`, as a class whose `updateInventory` completes the caller's update objects in place |

### Modelling conventions

- A JavaScript value is `JsValue.Value`.
  - An object is an ordered list of distinct keys with their values.
  - `Float(text)` stands for the number that `parseFloat(text)` returns. The parse itself is not modelled.
  - `DateVal(NewDate(arg))` stands for `new Date(arg)`.
  - `DateVal(Utc(fields))` is a Date whose UTC calendar fields are known.
- A thrown `TypeError` is a `Throw(TypeError)` result. Any other thrown value `v`, such as the list the error handler throws, is `Throw(Thrown(v))`.
- The current year, which `strToDate` reads from the clock, is a parameter. So are the calendar fields of a Date.
- Each method that mirrors a statement sequence or a loop is proved equal to a specification function. The properties are then proved about that function.

### Where the code and the tests disagree

The model follows the code in each case below.

- The TypeScript client's availability update. Its test (`src/lib/hunit-client.spec.ts:107-128`) expects every day flag of an update, all true when `dateRange` lists none. It also expects the `from` and `to` dates.
  - The adapter as written throws before it writes any date (see Findings).
  - Even with that fixed, it copies only the day flags the caller gave.
  - `InventoryAdapter.IntendedDays` proves the copy-only behaviour.
- The legacy client's test builds a client with no options (`test/hunit.client.test.js:23`). The constructor as written throws on that call (see Findings).

## Model

| member | source | states |
|---|---|---|
| Util.CopyFields | src/lib/util.ts:7-41 | A key is in the copied object exactly when it is in the source object and the allow-list, if there is one, names it. |
| Util.Kept | src/lib/util.ts:7-41 | The kept properties are exactly the allowed ones among the object's own keys. |
| Util.Clone | src/lib/util.ts:7-41 | The loop over the object's keys yields the deep copy `CloneOf` defines, for objects, arrays and primitives. |
| Util.CloneIdentity | src/lib/util.ts:7-41 | Cloning without an allow-list returns an equal value, at every depth. |
| Util.CloneRestricts | src/lib/util.ts:7-41 | Cloning an object with an allow-list yields its allowed properties, in their original order, each deep-copied. |
| Util.CopyFieldsKept | src/lib/util.ts:7-41 | Copying the first n properties equals filtering that prefix by the allow-list. |
| Util.TransformToArray | src/lib/util.ts:47-52 | An array is returned as is. Any other value, `undefined` included, becomes a list of one. |
| Util.Pad | src/lib/util.ts:59-62 | The result has length max(length, \|text\|), ends with the text and has only zeros before it. A text already long enough is unchanged. |
| Util.PadDigits | src/lib/util.ts:59-62 | Padding a number that fits in the width gives exactly that many decimal digits. |
| Util.DateToStr | src/lib/util.ts:69-92 | Without a date the result is the empty string. |
| Util.DateToStrIso | src/lib/util.ts:69-92 | The format `YYYY-MM-DD` gives the 4-digit year, 2-digit month (1-based) and 2-digit day, separated by dashes: ten characters. |
| Util.DateToStrDefault | src/lib/util.ts:69-92 | The default format gives `DD/MM/YYYY`. |
| Util.DateToStrMinutes | src/lib/util.ts:69-92 | A lower-case format is upper-cased first, and its second `MM` is the minutes: `dd/mm/yyyy hh:mm` gives day/month/year hours:minutes. |
| Util.DateToStrFixture | src/lib/util.ts:69-92 | 1 January 2020 formats as `2020-01-01`. |
| Util.StrToDate | src/lib/util.ts:98-109 | The result is always `new Date(text)` of a text ending in `-<day>Z`, where the day is what precedes the first `/`. The text is therefore always read as UTC. |
| Util.StrToDateDmy | src/lib/util.ts:98-109 | `d/m/yyyy` becomes the ISO text `yyyy-m-dZ` handed to `new Date`. |
| Util.StrToDateShortYear | src/lib/util.ts:98-109 | A two-digit year is prefixed with the current year's century digits. |
| Util.StrToDateIgnoresTime | src/lib/util.ts:98-109 | Everything after the first space is ignored. |
| Util.StrToDateFixture | src/lib/util.ts:98-109 | `22/10/2016` becomes `2016-10-22Z`. |
| Util.GetXmlString | src/lib/util.ts:111-125 | `undefined` and non-text scalars give "". A text is returned as is. |
| Util.GetXmlStringWrapped | src/lib/util.ts:111-125 | A text nested in any number of `_text` wrappers is found. |
| Util.GetXmlNumber | src/lib/util.ts:127-145 | A number is returned as is. A text is parsed after its first comma becomes a point. Anything else is `undefined`. |
| Util.GetXmlNumberWrapped | src/lib/util.ts:127-145 | A wrapped non-empty text is parsed like a bare one. |
| Util.GetXmlBoolean | src/lib/util.ts:147-149 | `undefined`, booleans and numbers always read as false. |
| Util.GetXmlBooleanIff | src/lib/util.ts:147-149 | The flag is true if and only if the text, trimmed of white space, is `true` in any letter case. |
| Util.FlagUpper | src/lib/util.ts:147-149 | `TRUE` reads as true. |
| Util.FlagPadded | src/lib/util.ts:147-149 | ` true ` reads as true. |
| Util.FlagFalse | src/lib/util.ts:147-149 | `false` reads as false. |
| Util.Convert | src/lib/util.ts:151-191 | The string reader gives a text and the boolean reader gives a boolean. |
| Util.PickFields | src/lib/util.ts:151-191 | A listed field is in the result if and only if the object has it as its own property. Its value is the converted one, and keys stay distinct. |
| Util.XmlFieldsOf | src/lib/util.ts:151-191 | `undefined` throws, unless the field list is given and empty, when the result is empty. |
| Util.CloneXml | src/lib/util.ts:151-191 | The loop over the field list computes `XmlFieldsOf`. |
| Util.PickLoop | src/lib/util.ts:156-162 | The `for … of` loop, visiting the listed keys in order and assigning only those the object owns, builds exactly `PickFields`. |
| Util.PickFieldsOrder | src/lib/util.ts:151-191 | The result's keys are the present fields in field-list order. |
| Util.XmlFieldsAll | src/lib/util.ts:151-191 | Without a field list, every own key is converted, in document order. |
| Util.AllStringsFields | src/lib/util.ts:151-163 | `cloneXmlStrings(obj)` keeps every key in order, each read as text. |
| ReservationAdapter.ParseRoom | src/lib/adapters/xml-to-reservation.ts:12-52 | The statement sequence of `parseRoom` computes `RoomOf`. |
| ReservationAdapter.RoomShape | src/lib/adapters/xml-to-reservation.ts:12-52 | Every property of a room is a field of the `Room` interface, and keys are distinct. |
| ReservationAdapter.RoomCopiedFields | src/lib/adapters/xml-to-reservation.ts:13-16 | A listed text or number field is present if and only if the element has it, read with the matching reader. |
| ReservationAdapter.RoomDates | src/lib/adapters/xml-to-reservation.ts:18-25 | Arrival and departure are set if and only if present, parsed by `strToDate`. |
| ReservationAdapter.RoomAges | src/lib/adapters/xml-to-reservation.ts:27-29 | `ageChildren` is set if and only if `ageChildren.ageChild` exists, holding its number. |
| ReservationAdapter.RoomAddons | src/lib/adapters/xml-to-reservation.ts:31-37 | The addons are one per `addon` element, in order. |
| ReservationAdapter.RoomDailyRates | src/lib/adapters/xml-to-reservation.ts:39-45 | The daily rates are one per `dailyRate` element, in order. |
| ReservationAdapter.DailyRateFields | src/lib/adapters/xml-to-reservation.ts:41-44 | A daily rate holds exactly its parsed date and value. |
| ReservationAdapter.RoomGuest | src/lib/adapters/xml-to-reservation.ts:47-49 | The room guest is set if and only if present, every attribute as text. |
| ReservationAdapter.ParseReservation | src/lib/adapters/xml-to-reservation.ts:54-120 | The statement sequence of `parseReservation` computes `ReservationOf`. |
| ReservationAdapter.CopyReservation | src/lib/adapters/xml-to-reservation.ts:55-69 | The object literal with its three spreads computes `ReservationBase`. |
| ReservationAdapter.ReservationShape | src/lib/adapters/xml-to-reservation.ts:54-120 | Every property is a field of the `Reservation` interface, and keys are distinct. |
| ReservationAdapter.ReservationCopiedFields | src/lib/adapters/xml-to-reservation.ts:56-67 | A listed field is present if and only if the element has it, as text or number. |
| ReservationAdapter.ReservationDates | src/lib/adapters/xml-to-reservation.ts:71-78 | The creation and cancellation times are set if and only if present, as `new Date(text)`. |
| ReservationAdapter.ReservationRooms | src/lib/adapters/xml-to-reservation.ts:80-83 | The rooms are one per `room` element, in order, each parsed by `parseRoom`. |
| ReservationAdapter.ReservationGuest | src/lib/adapters/xml-to-reservation.ts:85-99 | The guest is set if and only if present. The later assignment replaces the spread copy. |
| ReservationAdapter.GuestFields | src/lib/adapters/xml-to-reservation.ts:86-98 | The guest holds the listed texts the element has, plus `address` exactly when present, fully copied as text. |
| ReservationAdapter.ReservationPayment | src/lib/adapters/xml-to-reservation.ts:101-117 | The payment is set if and only if present. |
| ReservationAdapter.PaymentCopied | src/lib/adapters/xml-to-reservation.ts:103-112 | The listed payment texts and numbers are present exactly when the element has them. |
| ReservationAdapter.PaymentCharged | src/lib/adapters/xml-to-reservation.ts:113-115 | `prePaymentCharged` is set if and only if present, read as a boolean. |
| ReservationAdapter.XmlToReservation | src/lib/adapters/xml-to-reservation.ts:122-128 | A missing root element throws a TypeError. A root without `reservation` gives []. |
| ReservationAdapter.ReservationEntries | src/lib/adapters/xml-to-reservation.ts:126-127 | Otherwise there is one record per `reservation` entry, in order, each read by `parseReservation`. |
| ReservationAdapter.ReservationSingle | src/lib/adapters/xml-to-reservation.ts:126-127 | A single entry not wrapped in a list gives a list of one record. |
| ReservationAdapter.OneCallReservations | src/lib/adapters/xml-to-reservation.ts:130-142 | The list is built if and only if no item is `undefined`. Otherwise a TypeError. |
| ReservationAdapter.OneCallOf | src/lib/adapters/xml-to-reservation.ts:130-142 | A TypeError if and only if `ArrayOfTReservationRS` or its `TReservationRS` is missing. |
| ReservationAdapter.XmlOneCallToReservation | src/lib/adapters/xml-to-reservation.ts:130-142 | The `forEach` loop that pushes each item's reservations computes `OneCallOf`. |
| ReservationAdapter.OneCallAppend | src/lib/adapters/xml-to-reservation.ts:134-139 | The reservations of two item lists joined are the two results joined. |
| ReservationAdapter.OneCallSkips | src/lib/adapters/xml-to-reservation.ts:135-138 | An element without `reservation` children adds nothing. |
| ReservationAdapter.OneCallSingle | src/lib/adapters/xml-to-reservation.ts:122-142 | A single OneCall item gives the same reservations as the plain reader on the same element. |
| PortalAdapter.PortalOf | src/lib/adapters/xml-to-portal.ts:4-12 | A portal without `_attributes` throws a TypeError. Otherwise an object. |
| PortalAdapter.XmlToPortal | src/lib/adapters/xml-to-portal.ts:14-21 | Throws exactly when `portalRS` is missing or an entry lacks attributes. No `portal` gives []. |
| PortalAdapter.PortalList | src/lib/adapters/xml-to-portal.ts:19-20 | A list of entries gives one portal per entry, in order. |
| PortalAdapter.PortalSingle | src/lib/adapters/xml-to-portal.ts:19-20 | A single entry gives a list of one portal. |
| PortalAdapter.PortalAttribute | src/lib/adapters/xml-to-portal.ts:6 | Every other attribute is present exactly when given, as text. |
| PortalAdapter.PortalFlags | src/lib/adapters/xml-to-portal.ts:7-8 | Both flags are always present as booleans. A missing `isChildPortal` is false. |
| PortalAdapter.PortalKeyOrder | src/lib/adapters/xml-to-portal.ts:5-9 | The properties are the attributes in document order, then whichever flag is missing. |
| InventoryAdapter.ItemAsWritten | src/lib/adapters/inventory-to-xml.ts:6-13 | The callback always throws a TypeError: it reads `_attributes` of the never-assigned `dataRange`. |
| InventoryAdapter.InventoryToXml | src/lib/adapters/inventory-to-xml.ts:5-15 | As written, only the empty list maps (to []). Any update throws a TypeError. |
| InventoryAdapter.ItemIntended | src/lib/adapters/inventory-to-xml.ts:6-13 | With the date writes aimed at `dateRange`, an update throws if and only if it has no date range. |
| InventoryAdapter.BuildItem | src/lib/adapters/inventory-to-xml.ts:7-12 | The corrected statement sequence computes `ItemIntended`. |
| InventoryAdapter.InventoryToXmlIntended | src/lib/adapters/inventory-to-xml.ts:5-15 | Succeeds if and only if every update has a range, with one element per update in order. |
| InventoryAdapter.IntendedCopy | src/lib/adapters/inventory-to-xml.ts:7-10 | An element is the update's listed properties in order, then `dateRange`. |
| InventoryAdapter.IntendedDays | src/lib/adapters/inventory-to-xml.ts:9-12 | The range attributes are exactly the given day flags in order, then `from` and `to`. |
| InventoryAdapter.IntendedDates | src/lib/adapters/inventory-to-xml.ts:11-12 | `from` and `to` are written `YYYY-MM-DD`. |
| InventoryAdapter.DefectShown | src/lib/adapters/inventory-to-xml.ts:8-12 | An update with a range throws as written but maps as intended. |
| Client.GetXmlBase | src/lib/hunit-client.ts:35-54 | The request holds `_declaration` and the root tag, in that order, and the root tag holds the credentials-and-content body. |
| Client.XmlBaseLayout | src/lib/hunit-client.ts:35-54 | The request is the XML declaration followed by the root element holding the body. |
| Client.CredentialsFirst | src/lib/hunit-client.ts:46-51 | Without content, the body is `userName`, `password`, then `hotelId` only when requested, each from the credentials. |
| Client.ContentAfter | src/lib/hunit-client.ts:46-51 | The content's properties follow the credentials, with their values. |
| Client.BodyWithContent | src/lib/hunit-client.ts:46-51 | The body is the credentials with the content spread over them. |
| Client.FirstRoot | src/lib/hunit-client.ts:62 | Finds the first key not starting with `_`, or none. |
| Client.RootLookup | src/lib/hunit-client.ts:62-64 | The found root's value is what `xmlResponse[rootTag]` reads. |
| Client.ErrorHandler | src/lib/hunit-client.ts:61-70 | Throws exactly when the root has a truthy `errors`, and what it throws is that root's `error` children as a list. Otherwise it returns the answer unchanged. |
| Client.ErrorValue | src/lib/hunit-client.ts:61-70 | Whatever properties precede the root, the answer's error list is thrown exactly when the root has a truthy `errors`; otherwise the answer is passed on. |
| Client.DeclaredAnswer | src/lib/hunit-client.ts:61-70 | For a declaration plus one root, it throws the error list exactly when the root has errors. |
| Client.Confirmed | src/lib/hunit-client.ts:102 | Reading `errors` off a missing root tag throws. |
| Client.WriteOutcome | src/lib/hunit-client.ts:98-103 | A write operation rejects exactly when the error handler throws, with that handler's error, or when the answer lacks the checked tag. Otherwise it resolves to whether that tag has no `errors`. |
| Client.WriteNeverFalse | src/lib/hunit-client.ts:102 | A write call never yields false: it yields true exactly when there are no errors, and throws otherwise. |
| Client.OneCallReadWithoutHotel | src/lib/hunit-client.ts:176-180 | The OneCall read request carries only `userName` and `password`. |
| Client.OneCallConfirmWithoutHotel | src/lib/hunit-client.ts:186-192 | The OneCall confirmation carries no `hotelId`, then the confirmations. |
| Client.ConfirmeWithHotel | src/lib/hunit-client.ts:118-122 | The confirmation carries `hotelId`, then the confirmations. |
| Client.SingleContent | src/lib/hunit-client.ts:119-120 | A one-property content lands after the credentials. |
| Client.AvailabilityRequest | src/lib/hunit-client.ts:98-103 | As written, only an empty update list yields a request. Any update throws in the adapter. |
| Client.AvailabilityRequestIntended | src/lib/hunit-client.ts:98-103 | With the corrected adapter, the request is built exactly when every update has a range. |
| Client.OccupancyUpdates | src/lib/hunit-client.ts:199-206 | One `update` per rate, in order. |
| Client.OccupancyRequestBody | src/lib/hunit-client.ts:198-209 | The occupancy request body is the credentials with `hotelId`, then `updates`. |
| Client.OccupancyDate | src/lib/hunit-client.ts:202 | A rate's date is written `YYYY-MM-DD`, or "" without a date. |
| Client.PackageOf | src/lib/hunit-client.ts:135-140 | A package entry without `_attributes` throws a TypeError. |
| Client.PackageRead | src/lib/hunit-client.ts:131-140 | No `package` gives []. A missing `packageRS` or attributes throws. |
| Client.PackageList | src/lib/hunit-client.ts:134-140 | One package per entry, in order. |
| Client.PackageFields | src/lib/hunit-client.ts:136-139 | Every attribute is copied. A truthy `createDateTime` becomes a Date. |
| Client.RoomRateOf | src/lib/hunit-client.ts:151-154 | A missing entry or missing attributes throws a TypeError. |
| Client.RoomRateRead | src/lib/hunit-client.ts:150-154 | As written, a missing or falsy `roomRate` throws a TypeError. |
| Client.FalsyUnreadable | src/lib/hunit-client.ts:150-152 | A falsy `roomRate` (`undefined`, `false`, `0`, `""`) becomes a list of one entry without `_attributes`. |
| Client.RoomRateReadIntended | src/lib/hunit-client.ts:150-154 | With a guard, no `roomRate` gives []. |
| Client.RoomRateList | src/lib/hunit-client.ts:150-154 | Readable entries give one room rate per entry, in order, each `RoomRateOf` the entry, both as written and guarded. |
| Client.RoomRatesEach | src/lib/hunit-client.ts:151-154 | The `map` over readable entries yields one room rate per entry, in order. |
| Client.RoomRateDefect | src/lib/hunit-client.ts:150-154 | Without `roomRate`, or with a falsy one such as `""`, the code as written throws and the guarded reading gives []. With a truthy `roomRate` the two agree. |
| Client.RoomRateFields | src/lib/hunit-client.ts:152-153 | Listed texts and flags are present exactly when given, each read with its converter. |
| Client.BookingByIdRead | src/lib/hunit-client.ts:166-170 | A missing root throws. No reservation gives `undefined`. |
| Client.BookingByIdFirst | src/lib/hunit-client.ts:170 | Otherwise the result is the first reservation parsed. |
| LegacyClient.IfTruthy | hunit.client.js:8-10 | A property is kept only when truthy. |
| LegacyClient.ConstructAsWritten | hunit.client.js:7-11 | Throws a TypeError exactly when no options are passed. |
| LegacyClient.ConstructIntended | hunit.client.js:7-11 | Without options, every credential is unset. Otherwise each credential is the option of its name (`id`, `user`, `password`) when that option is truthy, and unset otherwise. |
| LegacyClient.ConstructorDefect | hunit.client.js:7-11 | Without options, the code throws where empty credentials were intended. With options, both agree. |
| LegacyClient.HUnitClient.constructor | hunit.client.js:7-11 | The credentials are those the intended constructor keeps. |
| LegacyClient.HUnitClient.GetXmlDate | hunit.client.js:18-27 | Computes `XmlDate`. |
| LegacyClient.XmlDateIso | hunit.client.js:18-27 | For 4-digit years, equals the `YYYY-MM-DD` of `dateToStr`, ten characters. |
| LegacyClient.LeadingZeroPad | hunit.client.js:23-24 | Prefixing one zero to a short text equals padding it to 2. |
| LegacyClient.XmlDateFixture | hunit.client.js:18-27 | 31 December 2020 (month 11) gives `2020-12-31`. |
| LegacyClient.HUnitClient.MontarXml | hunit.client.js:35-44 | The prolog, then the root tag around `hotelId`, `userName`, `password` and the content. |
| LegacyClient.EnvelopeNesting | hunit.client.js:35-44 | The envelope is properly nested: prolog, then one `tag` element around the credentials and content. |
| LegacyClient.HUnitClient.ConfirmReservations | hunit.client.js:113-123 | The request is the envelope around `<confirmations>` holding one confirmation per id. |
| LegacyClient.ConfirmationsAppend | hunit.client.js:115-117 | The confirmations of two id lists joined are the two texts joined. |
| LegacyClient.ConfirmationsOne | hunit.client.js:116 | One id gives one `confirmation` element. |
| LegacyClient.Effective | hunit.client.js:148 | The days used are always a truthy value (not necessarily an object: `days: true` is kept). |
| LegacyClient.EffectiveTwice | hunit.client.js:148 | Completing the days twice is completing them once. |
| LegacyClient.CompletedText | hunit.client.js:148-158 | Completing the stored days does not change the update's text. |
| LegacyClient.DaysAttributes | hunit.client.js:150-153 | The loop builds the seven `day="flag"` attributes. |
| LegacyClient.DaysAgree | hunit.client.js:152 | The attributes depend only on each day's truthiness. |
| LegacyClient.MissingDaysAllTrue | hunit.client.js:148-153 | Without days, every day is `true`. |
| LegacyClient.MissingDayFalse | hunit.client.js:152 | A day left out of a given days object is `false`. |
| LegacyClient.HUnitClient.UpdateXml | hunit.client.js:146-159 | One update's text: roomTypeId, availability, then the date range. |
| LegacyClient.CompleteDays | hunit.client.js:148 | Replaces falsy days with all-true on the i-th object. Earlier objects and other fields are unchanged. |
| LegacyClient.UpdatesAppend | hunit.client.js:145-160 | The updates of two lists joined are the two texts joined. |
| LegacyClient.UpdatesOne | hunit.client.js:155-159 | One update gives one `update` element. |
| LegacyClient.HUnitClient.UpdatesContent | hunit.client.js:144-160 | The loop's text is `UpdatesText` of the original records. Every object's days are completed, even when aliased. |
| LegacyClient.HUnitClient.UpdateInventory | hunit.client.js:142-166 | The request is the envelope with `<tag><updates>...</updates></tag>`, and the caller's updates are completed. |

## Left out

- HTTP transport (`doRequest` in both clients), `axios`, the promise chains and the base URLs. Each operation stops at the request it would post, or starts from the parsed answer.
- The xml-js conversions (`js2xml`, `xml2js`). Requests are modelled as the compact tree and answers start from it.
- `parseFloat` and `new Date(text)`. Both are modelled as uninterpreted values (`Float(text)`, `NewDate(arg)`).
- Clocks and time zones. `strToDate`'s current year and the calendar fields of Dates are parameters. The legacy client's `getFullYear`/`getMonth`/`getDate` fields are given directly.
- Object key order: `Object.keys` and spread list integer-like keys such as `"0"` first, in ascending order, but the model keeps all keys in insertion order. XML element and attribute names never look like integers, so the adapters are unaffected. Spreading an array or a string into an object is not modelled faithfully.
- Numbers are integers. `toUpperCase`/`toLowerCase` act on ASCII letters only.
- `clone` of a Date instance returns the same Date value (no new identity).
- The legacy client's `getOTAs`, `getReservations` and `getReservation`. Each passes a fixed tag and content to `montarXML`, so the envelope they post is `MontarXml`'s.
- The legacy client's interpolation assumes scalar ids, quantities and credentials. Objects interpolated as `[object Object]` are not modelled.
- Client.RoomRateRead: its contract covers only the failure cases. The successful reading is stated by `Client.RoomRateReadIntended` and `Client.RoomRateDefect`.
- Util.DateToStr: its contract covers only the missing date. The formats are stated by the `DateToStrIso`, `DateToStrDefault` and `DateToStrMinutes` lemmas.
- JavaScript `null`. `Value` has no null, so `clone`'s explicit `null == obj` test (util.ts:10) only ever meets `undefined`, and `getXmlString(null)`, which would throw on `value._text` (util.ts:120) where `undefined` gives "", is not modelled.
- The legacy client's dates are always valid calendar fields (`LocalDate`). An update without `from` or `to` makes `getXMLDate` throw a TypeError (hunit.client.js:19, 146-147), after the `days` of earlier updates were already completed in place. An invalid Date gives `NaN-NaN-NaN`. Neither is modelled.
- The classes, typed records and enumerations under `src/lib/types` are represented as field-name lists, not as Dafny datatypes.

## Findings

| source | as written | input that shows it | evidently intended | confidence | as-written member | corrected member |
|---|---|---|---|---|---|---|
| src/lib/adapters/inventory-to-xml.ts:11-12 | Writes the dates to `result.dataRange._attributes`, a property never assigned, so a TypeError is thrown | Any update with a `dateRange` (`InventoryAdapter.DefectShown`) | Write `from`/`to` into `result.dateRange._attributes` | high, not executed | InventoryAdapter.InventoryToXml | InventoryAdapter.InventoryToXmlIntended |
| src/lib/hunit-client.ts:150 | Maps `transformToArray(response.roomRateRS.roomRate)` unguarded, so a missing `roomRate` becomes `[undefined]` and throws a TypeError, and so does a falsy one | An answer whose `roomRateRS` has no `roomRate` (`Client.RoomRateDefect`) | Return [] as `packageRead` does at lines 131-133 | medium, not executed | Client.RoomRateRead | Client.RoomRateReadIntended |
| hunit.client.js:7-11 | Reads `opt.id` without a default for `opt`, so `new HUnitClient()` throws a TypeError | `new HUnitClient()`, as in test/hunit.client.test.js:23 (`LegacyClient.ConstructorDefect`) | Empty credentials | high, not executed | LegacyClient.ConstructAsWritten | LegacyClient.ConstructIntended |
