/** The legacy client of `hunit.client.js`: the credentials it keeps and the
    request texts it builds by string concatenation. Posting the request is
    not modelled; each operation returns the text it would post. */
module LegacyClient {
  import opened JsString
  import opened JsValue
  import opened Util

  // ---------------------------------------------------------------------
  // Text building blocks

  /** The values the client interpolates: documented as numbers and strings,
      and `undefined` for an option that was never set. */
  predicate Scalar(v: Value) {
    v.Undef? || v.Bool? || v.Num? || v.Str?
  }

  /** `${v}` in a template literal. */
  function Text(v: Value): string
    requires Scalar(v)
  {
    match v
    case Undef => "undefined"
    case Bool(b) => if b then "true" else "false"
    case Num(n) => IntToString(n)
    case Str(s) => s
  }

  const Prolog := "<?xml version=\"1.0\" encoding=\"UTF-8\" standalone=\"yes\"?>"

  /** `<name>inner</name>`. */
  function Element(name: string, inner: string): string {
    "<" + name + ">" + inner + "</" + name + ">"
  }

  /** The whole request, piece after piece: the prolog, the opening root
      tag, the credentials in the order hotel, user, password, the content
      when there is any, and the closing root tag. */
  function Envelope(hotelId: string, user: string, password: string, tag: string, content: Option<string>): string {
    var body := if content.Some? then content.value else "";
    Prolog + ("<" + tag + ">") + Element("hotelId", hotelId) + Element("userName", user) + Element("password", password)
      + body + ("</" + tag + ">")
  }

  /** The pieces nest: the request is the prolog followed by one root element
      whose content is the three credential elements and then the content. */
  lemma EnvelopeNesting(hotelId: string, user: string, password: string, tag: string, content: Option<string>)
    ensures Envelope(hotelId, user, password, tag, content)
         == Prolog + Element(tag, Element("hotelId", hotelId) + Element("userName", user) + Element("password", password)
                                  + (if content.Some? then content.value else ""))
  {
    var body := if content.Some? then content.value else "";
    var open, close := "<" + tag + ">", "</" + tag + ">";
    var h, u, w := Element("hotelId", hotelId), Element("userName", user), Element("password", password);
    SeqAppendAssoc(Prolog, open, h);
    SeqAppendAssoc(Prolog, open + h, u);
    SeqAppendAssoc(Prolog, open + h + u, w);
    SeqAppendAssoc(Prolog, open + h + u + w, body);
    SeqAppendAssoc(Prolog, open + h + u + w + body, close);
    SeqAppendAssoc(open, h, u);
    SeqAppendAssoc(open, h + u, w);
    SeqAppendAssoc(open, h + u + w, body);
  }

  /** Local calendar fields of a Date, as `getFullYear`, `getMonth` (0-based)
      and `getDate` report them. */
  datatype LocalDate = LocalDate(year: int, month: nat, day: nat)

  /** The `y-mm-dd` text of a date: the year as it is, the 1-based month and
      the day zero-padded to two digits. */
  function XmlDate(date: LocalDate): string {
    IntToString(date.year) + "-" + LeadingZero(NatToString(date.month + 1)) + "-" + LeadingZero(NatToString(date.day))
  }

  /** A one-character text preceded by `'0'`. */
  function LeadingZero(s: string): string {
    if |s| < 2 then "0" + s else s
  }

  // ---------------------------------------------------------------------
  // The constructor

  /** The three credentials the constructor may set (`Undef` when unset). */
  datatype Credentials = Credentials(hotelId: Value, user: Value, password: Value)

  /** `if (opt.x) this.y = opt.x`: the option when truthy, else unset. */
  function IfTruthy(v: Value): (r: Value)
    requires !v.Float?
    ensures Truthy(v) ==> r == v
    ensures !Truthy(v) ==> r == Undef
  {
    if Truthy(v) then v else Undef
  }

  /** `new HUnitClient(opt)` as written: without options, reading `opt.id`
      throws a TypeError. */
  function ConstructAsWritten(opt: Value): (r: Result<Credentials>)
    requires Plain(opt)
    ensures r.Throw? <==> opt.Undef?
    ensures r.Throw? ==> r.error == TypeError
  {
    if opt.Undef? then Throw(TypeError)
    else Ok(Credentials(IfTruthy(Get(opt, "id")), IfTruthy(Get(opt, "user")), IfTruthy(Get(opt, "password"))))
  }

  /** The constructor with its options optional, as the client's own test
      calls it: no options leaves every credential unset. */
  function ConstructIntended(opt: Value): (r: Credentials)
    requires Plain(opt)
    ensures opt.Undef? ==> r == Credentials(Undef, Undef, Undef)
    ensures r.hotelId.Undef? || (!opt.Undef? && r.hotelId == Get(opt, "id") && Truthy(r.hotelId))
    ensures r.user.Undef? || (!opt.Undef? && r.user == Get(opt, "user") && Truthy(r.user))
    ensures r.password.Undef? || (!opt.Undef? && r.password == Get(opt, "password") && Truthy(r.password))
    ensures !opt.Undef? && Truthy(Get(opt, "id")) ==> r.hotelId == Get(opt, "id")
    ensures !opt.Undef? && Truthy(Get(opt, "user")) ==> r.user == Get(opt, "user")
    ensures !opt.Undef? && Truthy(Get(opt, "password")) ==> r.password == Get(opt, "password")
  {
    if opt.Undef? then Credentials(Undef, Undef, Undef)
    else Credentials(IfTruthy(Get(opt, "id")), IfTruthy(Get(opt, "user")), IfTruthy(Get(opt, "password")))
  }

  /** The defect: without options the constructor throws where an unset
      client was meant; with options both agree, and an option is kept
      exactly when it is truthy. */
  lemma ConstructorDefect(opt: Value)
    requires Plain(opt)
    ensures opt.Undef? ==> ConstructAsWritten(opt) == Throw(TypeError)
                           && ConstructIntended(opt) == Credentials(Undef, Undef, Undef)
    ensures !opt.Undef? ==> ConstructAsWritten(opt) == Ok(ConstructIntended(opt))
  {
  }

  // ---------------------------------------------------------------------
  // updateInventory's inputs

  /** One inventory update, an object of the caller's that `updateInventory`
      may complete with `days`. */
  class InventoryUpdate {
    var id: Value
    var qtd: Value
    var from: LocalDate
    var to: LocalDate
    var days: Value

    constructor (id: Value, qtd: Value, from: LocalDate, to: LocalDate, days: Value)
      ensures this.id == id && this.qtd == qtd && this.from == from && this.to == to && this.days == days
    {
      this.id := id;
      this.qtd := qtd;
      this.from := from;
      this.to := to;
      this.days := days;
    }
  }

  /** The state of an update at one moment. */
  datatype UpdateRecord = UpdateRecord(id: Value, qtd: Value, from: LocalDate, to: LocalDate, days: Value)

  function Record(u: InventoryUpdate): UpdateRecord
    reads u
  {
    UpdateRecord(u.id, u.qtd, u.from, u.to, u.days)
  }

  function Records(us: seq<InventoryUpdate>): (rs: seq<UpdateRecord>)
    reads us
    ensures |rs| == |us| && forall i :: 0 <= i < |us| ==> rs[i] == Record(us[i])
  {
    seq(|us|, i requires 0 <= i < |us| reads us => Record(us[i]))
  }

  /** An update's values can be written into the request. */
  predicate Writable(r: UpdateRecord) {
    Scalar(r.id) && Scalar(r.qtd) && Plain(r.days)
  }

  const Days: seq<string> := ["sun", "mon", "tue", "wed", "thu", "fri", "sat"]

  /** `{sun: true, ..., sat: true}`, written into updates without `days`. */
  const AllDays: Value :=
    Obj([("sun", Bool(true)), ("mon", Bool(true)), ("tue", Bool(true)), ("wed", Bool(true)),
         ("thu", Bool(true)), ("fri", Bool(true)), ("sat", Bool(true))])

  /** The `days` an update has once visited. */
  function Effective(days: Value): (r: Value)
    requires Plain(days)
    ensures Plain(r) && !r.Undef? && Truthy(r)
  {
    if Truthy(days) then days else AllDays
  }

  /** Visiting an update twice changes nothing more: completed days are truthy. */
  lemma EffectiveTwice(days: Value)
    requires Plain(days)
    ensures Effective(Effective(days)) == Effective(days)
  {
  }

  /** An update whose `days` were completed gives the same element as before. */
  lemma CompletedText(r: UpdateRecord, completed: UpdateRecord)
    requires Writable(r) && completed == r.(days := Effective(r.days))
    ensures Writable(completed) && UpdateText(completed) == UpdateText(r)
  {
    EffectiveTwice(r.days);
  }

  /** `days[name] ? 'true' : 'false'`. */
  function Flag(days: Value, name: string): string
    requires Plain(days) && !days.Undef?
  {
    if Truthy(Get(days, name)) then "true" else "false"
  }

  /** The day attributes for the first names of the list. */
  function DaysText(days: Value, names: seq<string>): string
    requires Plain(days) && !days.Undef?
  {
    if |names| == 0 then ""
    else
      var last := names[|names| - 1];
      DaysText(days, names[..|names| - 1]) + last + "=\"" + Flag(days, last) + "\" "
  }

  /** The inner loop of `updateInventory`: one `name="true"` or
      `name="false"` attribute per day of the week, Sunday first. */
  method DaysAttributes(days: Value) returns (s: string)
    requires Plain(days) && !days.Undef?
    ensures s == DaysText(days, Days)
  {
    var names := Days;
    s := "";
    for j := 0 to |names|
      invariant s == DaysText(days, names[..j])
    {
      DaysStep(days, names, j);
      s := s + names[j] + "=\"" + (if Truthy(Get(days, names[j])) then "true" else "false") + "\" ";
    }
    assert names[..|names|] == names;
  }

  /** One more name adds its attribute at the end. */
  lemma DaysStep(days: Value, names: seq<string>, j: nat)
    requires Plain(days) && !days.Undef? && j < |names|
    ensures DaysText(days, names[..j + 1])
         == DaysText(days, names[..j]) + names[j] + "=\"" + Flag(days, names[j]) + "\" "
  {
    assert names[..j + 1][..j] == names[..j];
  }

  /** `<dateRange from="..." to="..." days/>`. */
  function DateRangeText(from: string, to: string, days: string): string {
    "<dateRange from=\"" + from + "\" to=\"" + to + "\" " + days + "/>"
  }

  /** One `<update>` element. */
  function UpdateText(r: UpdateRecord): string
    requires Writable(r)
  {
    "<update>" + Element("roomTypeId", Text(r.id)) + Element("availability", Text(r.qtd))
      + DateRangeText(XmlDate(r.from), XmlDate(r.to), DaysText(Effective(r.days), Days)) + "</update>"
  }

  /** Every update of a list can be written into the request. */
  predicate AllWritable(rs: seq<UpdateRecord>) {
    forall i :: 0 <= i < |rs| ==> Writable(rs[i])
  }

  /** The `<update>` elements of a list of updates, in order. */
  function UpdatesText(rs: seq<UpdateRecord>): string
    requires AllWritable(rs)
  {
    if |rs| == 0 then "" else UpdatesText(rs[..|rs| - 1]) + UpdateText(rs[|rs| - 1])
  }

  /** `content` holds the elements of the first `i` updates. */
  ghost predicate Built(rs: seq<UpdateRecord>, i: nat, content: string) {
    i <= |rs| && AllWritable(rs) && AllWritable(rs[..i]) && content == UpdatesText(rs[..i])
  }

  /** One more update adds its element at the end. */
  lemma UpdatesStep(rs: seq<UpdateRecord>, i: nat, content: string, text: string)
    requires Built(rs, i, content) && i < |rs| && text == UpdateText(rs[i])
    ensures Built(rs, i + 1, content + text)
  {
    UpdatesPrefix(rs, i);
  }

  lemma UpdatesPrefix(rs: seq<UpdateRecord>, i: nat)
    requires AllWritable(rs) && i < |rs|
    ensures AllWritable(rs[..i]) && AllWritable(rs[..i + 1])
    ensures UpdatesText(rs[..i + 1]) == UpdatesText(rs[..i]) + UpdateText(rs[i])
  {
    assert rs[..i + 1][..i] == rs[..i];
  }

  /** Once every update is visited, `content` holds all their elements. */
  lemma BuiltAll(rs: seq<UpdateRecord>, content: string)
    requires Built(rs, |rs|, content)
    ensures content == UpdatesText(rs)
  {
    assert rs[..|rs|] == rs;
  }

  /** `<confirmation><reservationId>${id}</reservationId></confirmation>`. */
  function ConfirmationText(id: Value): string
    requires Scalar(id)
  {
    "<confirmation><reservationId>" + Text(id) + "</reservationId></confirmation>"
  }

  /** The `<confirmation>` elements of a list of reservation ids, in order. */
  function ConfirmationsText(ids: seq<Value>): string
    requires forall i :: 0 <= i < |ids| ==> Scalar(ids[i])
  {
    if |ids| == 0 then "" else ConfirmationsText(ids[..|ids| - 1]) + ConfirmationText(ids[|ids| - 1])
  }

  /** Equal objects of a list had equal states. */
  ghost predicate Aliased(updates: seq<InventoryUpdate>, before: seq<UpdateRecord>) {
    |updates| == |before|
    && forall j, k :: 0 <= j < |updates| && 0 <= k < |updates| && updates[j] == updates[k] ==> before[j] == before[k]
  }

  /** The first `i` updates, and any object among them wherever it appears,
      have their `days` completed; the others have their own; nothing else
      changed. */
  ghost predicate Visited(updates: seq<InventoryUpdate>, before: seq<UpdateRecord>, i: nat)
    reads updates
  {
    && |updates| == |before| && i <= |updates|
    && (forall j :: 0 <= j < |updates| && Writable(before[j]) ==>
          updates[j].days == before[j].days || updates[j].days == Effective(before[j].days))
    && (forall j :: 0 <= j < i && Writable(before[j]) ==> updates[j].days == Effective(before[j].days))
    && (forall j :: 0 <= j < |updates| ==>
          updates[j].id == before[j].id && updates[j].qtd == before[j].qtd
          && updates[j].from == before[j].from && updates[j].to == before[j].to)
  }

  /** Each update's state is its earlier state with `days` completed. */
  ghost predicate Completed(updates: seq<InventoryUpdate>, before: seq<UpdateRecord>)
    requires |updates| == |before| && AllWritable(before)
    reads updates
  {
    forall j :: 0 <= j < |updates| ==> Record(updates[j]) == before[j].(days := Effective(before[j].days))
  }

  /** Once every update is visited, every one is completed. */
  lemma VisitedAll(updates: seq<InventoryUpdate>, before: seq<UpdateRecord>)
    requires AllWritable(before) && Visited(updates, before, |updates|)
    ensures Completed(updates, before)
  {
    forall j | 0 <= j < |updates|
      ensures Record(updates[j]) == before[j].(days := Effective(before[j].days))
    {
      assert Writable(before[j]);
    }
  }

  /** `if (!updates[i].days) updates[i].days = {sun: true, ...}`. */
  method CompleteDays(updates: seq<InventoryUpdate>, i: nat, ghost before: seq<UpdateRecord>)
    requires i < |updates| && Aliased(updates, before) && AllWritable(before) && Visited(updates, before, i)
    modifies updates[i]
    ensures Visited(updates, before, i + 1)
  {
    EffectiveTwice(before[i].days);
    if !Truthy(updates[i].days) {
      updates[i].days := AllDays;
    }
  }

  // ---------------------------------------------------------------------
  // What the request texts hold

  /** The confirmation elements of two lists of ids, one after the other,
      are those of the joined list: one element per id, in order. */
  lemma {:induction false} ConfirmationsAppend(a: seq<Value>, b: seq<Value>)
    requires forall i :: 0 <= i < |a| ==> Scalar(a[i])
    requires forall i :: 0 <= i < |b| ==> Scalar(b[i])
    ensures forall i :: 0 <= i < |a + b| ==> Scalar((a + b)[i])
    ensures ConfirmationsText(a + b) == ConfirmationsText(a) + ConfirmationsText(b)
    decreases |b|
  {
    if |b| == 0 {
      assert a + b == a;
    } else {
      var front, last := b[..|b| - 1], b[|b| - 1];
      assert (a + b)[..|a + b| - 1] == a + front && (a + b)[|a + b| - 1] == last;
      ConfirmationsAppend(a, front);
      SeqAppendAssoc(ConfirmationsText(a), ConfirmationsText(front), ConfirmationText(last));
    }
  }

  /** A single id gives a single confirmation element. */
  lemma ConfirmationsOne(id: Value)
    requires Scalar(id)
    ensures ConfirmationsText([id]) == ConfirmationText(id)
  {
    assert [id][..0] == [];
  }

  /** The update elements of two lists, one after the other, are those of
      the joined list: one element per update, in order. */
  lemma {:induction false} UpdatesAppend(a: seq<UpdateRecord>, b: seq<UpdateRecord>)
    requires AllWritable(a) && AllWritable(b)
    ensures AllWritable(a + b)
    ensures UpdatesText(a + b) == UpdatesText(a) + UpdatesText(b)
    decreases |b|
  {
    WritableAppend(a, b);
    if |b| == 0 {
      assert a + b == a;
    } else {
      var front, last := b[..|b| - 1], b[|b| - 1];
      assert AllWritable(front);
      assert (a + b)[..|a + b| - 1] == a + front && (a + b)[|a + b| - 1] == last;
      UpdatesAppend(a, front);
      SeqAppendAssoc(UpdatesText(a), UpdatesText(front), UpdateText(last));
    }
  }

  lemma WritableAppend(a: seq<UpdateRecord>, b: seq<UpdateRecord>)
    requires AllWritable(a) && AllWritable(b)
    ensures AllWritable(a + b)
  {
    assert forall i :: 0 <= i < |a + b| ==> (a + b)[i] == if i < |a| then a[i] else b[i - |a|];
  }

  /** A single update gives a single update element. */
  lemma UpdatesOne(r: UpdateRecord)
    requires Writable(r)
    ensures AllWritable([r]) && UpdatesText([r]) == UpdateText(r)
  {
    assert [r][..0] == [];
  }

  /** The day attributes depend only on which days are truthy. */
  lemma {:induction false} DaysAgree(d: Value, e: Value, names: seq<string>)
    requires Plain(d) && !d.Undef? && Plain(e) && !e.Undef?
    requires forall i :: 0 <= i < |names| ==> Truthy(Get(d, names[i])) == Truthy(Get(e, names[i]))
    ensures DaysText(d, names) == DaysText(e, names)
    decreases |names|
  {
    if |names| > 0 {
      DaysAgree(d, e, names[..|names| - 1]);
    }
  }

  /** An update without `days` is written available on all seven days. */
  lemma MissingDaysAllTrue(days: Value)
    requires Plain(days) && !Truthy(days)
    ensures forall i :: 0 <= i < |Days| ==> Flag(Effective(days), Days[i]) == "true"
  {
    var fields := AllDays.fields;
    assert forall j :: 0 <= j < |fields| ==> fields[j].1 == Bool(true);
    assert Keys(fields) == Days;
    forall i | 0 <= i < |Days|
      ensures Get(AllDays, Days[i]) == Bool(true)
    {
      assert Keys(fields)[i] == Days[i];
      var j := FindKey(fields, Days[i]);
      assert j.Some?;
    }
  }

  /** A day the update's `days` leaves out, or gives a falsy value, is
      written `false`. */
  lemma MissingDayFalse(days: Value, name: string)
    requires Plain(days) && Truthy(days) && !Truthy(Get(days, name))
    ensures Flag(Effective(days), name) == "false"
  {
  }

  /** `'0' + s` for a one-digit text is `pad(s, 2)`. */
  lemma LeadingZeroPad(s: string)
    requires 1 <= |s| <= 2
    ensures LeadingZero(s) == Pad(s, 2)
  {
    if |s| == 1 {
      assert Repeat('0', 1) == "0";
    }
  }

  /** For a four-digit year, `getXMLDate` writes what `dateToStr` writes
      with the format `YYYY-MM-DD` for the same calendar fields. */
  lemma XmlDateIso(date: LocalDate)
    requires 1000 <= date.year < 10000 && date.month < 12 && date.day < 100
    ensures XmlDate(date) == DateToStr(Some(UtcDate(date.year, date.month, date.day, 0, 0, 0, 0)), "YYYY-MM-DD")
    ensures |XmlDate(date)| == 10
  {
    var d := UtcDate(date.year, date.month, date.day, 0, 0, 0, 0);
    XmlDatePadded(date, d);
    DateToStrIso(d);
  }

  /** `getXMLDate` pads the month and the day as `pad` does. */
  lemma XmlDatePadded(date: LocalDate, d: UtcDate)
    requires 1000 <= date.year < 10000 && date.month < 12 && date.day < 100
    requires d.year == date.year && d.month == date.month && d.day == date.day
    ensures XmlDate(date) == Year4(d) + "-" + Month2(d) + "-" + Day2(d)
  {
    LeadingZeroPad(NatToString(date.month + 1));
    LeadingZeroPad(NatToString(date.day));
    YearDigits(date.year);
  }

  /** A four-digit year needs no padding. */
  lemma YearDigits(year: int)
    requires 1000 <= year < 10000
    ensures IntToString(year) == Pad(NatToString(year), 4)
  {
  }

  /** The last day of 2020, with its 0-based month. */
  lemma XmlDateFixture()
    ensures XmlDate(LocalDate(2020, 11, 31)) == "2020-12-31"
  {
    assert NatToString(12) == "12" && NatToString(31) == "31";
    assert NatToString(2020) == "2020";
  }

  // ---------------------------------------------------------------------
  // The client

  class HUnitClient {
    var hotelId: Value
    var user: Value
    var password: Value

    /** The credentials can be written into a request. */
    predicate Valid()
      reads this
    {
      Scalar(hotelId) && Scalar(user) && Scalar(password)
    }

    /** `new HUnitClient(opt)`, with no options treated as empty ones (see
        `ConstructAsWritten` for the code as it stands). */
    constructor (opt: Value)
      requires Plain(opt)
      requires !opt.Undef? ==> Scalar(Get(opt, "id")) && Scalar(Get(opt, "user")) && Scalar(Get(opt, "password"))
      ensures Credentials(hotelId, user, password) == ConstructIntended(opt)
      ensures Valid()
    {
      hotelId := Undef;
      user := Undef;
      password := Undef;
      if !opt.Undef? {
        if Truthy(Get(opt, "id")) {
          hotelId := Get(opt, "id");
        }
        if Truthy(Get(opt, "user")) {
          user := Get(opt, "user");
        }
        if Truthy(Get(opt, "password")) {
          password := Get(opt, "password");
        }
      }
    }

    /** `getXMLDate(date)`. */
    method GetXmlDate(date: LocalDate) returns (s: string)
      ensures s == XmlDate(date)
    {
      var y := IntToString(date.year);
      var m := NatToString(date.month + 1);
      var d := NatToString(date.day);
      if |m| < 2 {
        m := "0" + m;
      }
      if |d| < 2 {
        d := "0" + d;
      }
      s := y + "-" + m + "-" + d;
    }

    /** `montarXML(tag, content)`: the text grows one piece at a time. */
    method MontarXml(tag: string, content: Option<string>) returns (xml: string)
      requires Valid()
      ensures xml == Envelope(Text(hotelId), Text(user), Text(password), tag, content)
    {
      xml := Prolog;
      xml := xml + ("<" + tag + ">");
      xml := xml + Element("hotelId", Text(hotelId));
      xml := xml + Element("userName", Text(user));
      xml := xml + Element("password", Text(password));
      if content.Some? && content.value != "" {
        xml := xml + content.value;
      } else {
        assert xml + "" == xml;
      }
      xml := xml + ("</" + tag + ">");
    }

    /** `confirmReservations(ids)`: the request text it posts. */
    method ConfirmReservations(ids: seq<Value>) returns (xml: string)
      requires Valid() && forall i :: 0 <= i < |ids| ==> Scalar(ids[i])
      ensures xml == Envelope(Text(hotelId), Text(user), Text(password), "reservationConfirmeRQ",
                              Some(Element("confirmations", ConfirmationsText(ids))))
    {
      var content := "";
      for i := 0 to |ids|
        invariant content == ConfirmationsText(ids[..i])
      {
        assert ids[..i + 1][..i] == ids[..i];
        content := content + ConfirmationText(ids[i]);
      }
      assert ids[..|ids|] == ids;
      content := Element("confirmations", content);
      xml := MontarXml("reservationConfirmeRQ", Some(content));
    }

    /** The body of the loop of `updateInventory` once the update's `days`
        are completed: its `<update>` element. */
    method UpdateXml(r: UpdateRecord) returns (text: string)
      requires Writable(r) && Truthy(r.days)
      ensures text == UpdateText(r)
    {
      var from := GetXmlDate(r.from);
      var to := GetXmlDate(r.to);
      var daysStr := DaysAttributes(r.days);
      text := "";
      text := text + "<update>";
      text := text + Element("roomTypeId", Text(r.id));
      text := text + Element("availability", Text(r.qtd));
      text := text + DateRangeText(from, to, daysStr);
      text := text + "</update>";
      assert "" + "<update>" == "<update>";
    }

    /** The loop of `updateInventory`: completes every update without
        `days` with all seven days and returns the `<update>` elements, one
        per input in order. The same update object may appear more than once
        in the list. */
    method UpdatesContent(updates: seq<InventoryUpdate>) returns (content: string)
      requires forall i :: 0 <= i < |updates| ==> Scalar(updates[i].id) && Scalar(updates[i].qtd)
      requires forall i :: 0 <= i < |updates| ==> Plain(updates[i].days)
      modifies updates
      ensures AllWritable(old(Records(updates))) && Completed(updates, old(Records(updates)))
      ensures content == UpdatesText(old(Records(updates)))
    {
      ghost var before := Records(updates);
      content := "";
      assert before[..0] == [];
      for i := 0 to |updates|
        invariant Aliased(updates, before) && AllWritable(before)
        invariant Built(before, i, content)
        invariant Visited(updates, before, i)
      {
        CompleteDays(updates, i, before);
        CompletedText(before[i], Record(updates[i]));
        var text := UpdateXml(Record(updates[i]));
        UpdatesStep(before, i, content, text);
        content := content + text;
      }
      BuiltAll(before, content);
      VisitedAll(updates, before);
    }

    /** `updateInventory(updates)`: the request text it posts, the
        `<update>` elements wrapped in `<updates>` and then in `<tag>`. */
    method UpdateInventory(updates: seq<InventoryUpdate>) returns (xml: string)
      requires Valid()
      requires forall i :: 0 <= i < |updates| ==> Scalar(updates[i].id) && Scalar(updates[i].qtd)
      requires forall i :: 0 <= i < |updates| ==> Plain(updates[i].days)
      modifies updates
      ensures AllWritable(old(Records(updates))) && Completed(updates, old(Records(updates)))
      ensures xml == Envelope(Text(hotelId), Text(user), Text(password), "updateRQ",
                              Some(Element("tag", Element("updates", UpdatesText(old(Records(updates)))))))
    {
      var content := UpdatesContent(updates);
      content := Element("updates", content);
      xml := MontarXml("updateRQ", Some(Element("tag", content)));
    }
  }
}
