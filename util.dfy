/** The helpers of `src/lib/util.ts`: deep copy with an allow-list, list
    coercion, zero padding, date formatting and parsing, and the readers that
    normalise a scalar of the parsed XML tree. */
module Util {
  import opened JsString
  import opened JsValue

  // ---------------------------------------------------------------------
  // clone

  /** Objects whose keys are distinct at every depth, as every object built
      by JavaScript is. */
  predicate WellFormed(v: Value) {
    match v
    case Obj(fields) => DistinctKeys(fields) && forall i :: 0 <= i < |fields| ==> WellFormed(fields[i].1)
    case Arr(items) => forall i :: 0 <= i < |items| ==> WellFormed(items[i])
    case _ => true
  }

  /** A property survives the copy: there is no allow-list, or it names the key. */
  predicate Allowed(allow: Option<seq<string>>, k: string) {
    allow.None? || k in allow.value
  }

  /** `clone(v, allow)`: primitives (and Dates, whose time is copied) come back
      as they are; arrays are copied element by element without the
      allow-list; objects keep their own properties that the allow-list
      names, each copied in turn. */
  function CloneOf(v: Value, allow: Option<seq<string>>): Value
    decreases v, 1
  {
    match v
    case Arr(items) => Arr(seq(|items|, i requires 0 <= i < |items| => CloneOf(items[i], None)))
    case Obj(fields) => Obj(CopyFields(fields, allow, |fields|))
    case _ => v
  }

  /** The copy after the `for...in` loop has visited the first `n` properties. */
  function CopyFields(fields: seq<(string, Value)>, allow: Option<seq<string>>, n: nat): (r: seq<(string, Value)>)
    requires n <= |fields|
    ensures forall k :: k in Keys(r) <==> k in Keys(fields[..n]) && Allowed(allow, k)
    decreases Obj(fields), 0, n
  {
    if n == 0 then []
    else
      var acc := CopyFields(fields, allow, n - 1);
      var k := fields[n - 1].0;
      assert Keys(fields[..n]) == Keys(fields[..n - 1]) + [k];
      assert fields[n - 1] in fields;
      if Allowed(allow, k) then Put(acc, k, CloneOf(fields[n - 1].1, None)) else acc
  }

  /** The reference for an allow-listed copy: the properties the list names,
      in their original order. */
  function Kept(fields: seq<(string, Value)>, allow: Option<seq<string>>): (r: seq<(string, Value)>)
    ensures forall k :: k in Keys(r) <==> k in Keys(fields) && Allowed(allow, k)
  {
    if |fields| == 0 then []
    else
      var last := fields[|fields| - 1];
      var init := fields[..|fields| - 1];
      assert fields == init + [last];
      assert Keys(fields) == Keys(init) + [last.0];
      var rest := Kept(init, allow);
      assert Keys(rest + [last]) == Keys(rest) + [last.0];
      if Allowed(allow, last.0) then rest + [last] else rest
  }

  /** `clone` step by step: a fresh array or object
      filled in a loop, recursing into every element. */
  method Clone(v: Value, allow: Option<seq<string>>) returns (copy: Value)
    ensures copy == CloneOf(v, allow)
    decreases v
  {
    match v {
      case Arr(items) =>
        var out: seq<Value> := [];
        for i := 0 to |items|
          invariant |out| == i
          invariant forall j :: 0 <= j < i ==> out[j] == CloneOf(items[j], None)
        {
          var c := Clone(items[i], None);
          out := out + [c];
        }
        copy := Arr(out);
      case Obj(fields) =>
        var out: seq<(string, Value)> := [];
        for i := 0 to |fields|
          invariant out == CopyFields(fields, allow, i)
        {
          if Allowed(allow, fields[i].0) {
            var c := Clone(fields[i].1, None);
            out := Put(out, fields[i].0, c);
          }
        }
        copy := Obj(out);
      case _ =>
        copy := v;
    }
  }

  /** Without an allow-list, the copy equals the original. */
  lemma {:induction false} CloneIdentity(v: Value)
    requires WellFormed(v)
    ensures CloneOf(v, None) == v
    decreases v, 1
  {
    match v
    case Arr(items) =>
      forall i | 0 <= i < |items| ensures CloneOf(items[i], None) == items[i] {
        CloneIdentity(items[i]);
      }
    case Obj(fields) =>
      CopyFieldsIdentity(fields, |fields|);
      assert fields[..|fields|] == fields;
    case _ =>
  }

  lemma {:induction false} CopyFieldsIdentity(fields: seq<(string, Value)>, n: nat)
    requires WellFormed(Obj(fields)) && n <= |fields|
    ensures CopyFields(fields, None, n) == fields[..n]
    decreases Obj(fields), 0, n
  {
    if n > 0 {
      CopyFieldsIdentity(fields, n - 1);
      assert WellFormed(fields[n - 1].1);
      CloneIdentity(fields[n - 1].1);
      CopyFieldsIdentityStep(fields, n);
    }
  }

  lemma CopyFieldsIdentityStep(fields: seq<(string, Value)>, n: nat)
    requires DistinctKeys(fields) && 0 < n <= |fields|
    requires CopyFields(fields, None, n - 1) == fields[..n - 1]
    requires CloneOf(fields[n - 1].1, None) == fields[n - 1].1
    ensures CopyFields(fields, None, n) == fields[..n]
  {
    var k, x := fields[n - 1].0, fields[n - 1].1;
    assert CopyFields(fields, None, n) == Put(fields[..n - 1], k, x);
    FreshInPrefix(fields, n - 1);
    AppendLast(fields, n, k, x);
  }

  /** The step of `CopyFieldsIdentity`: a fresh key assigned after the prefix before it. */
  lemma AppendLast(fields: seq<(string, Value)>, n: nat, k: string, x: Value)
    requires 0 < n <= |fields| && fields[n - 1] == (k, x)
    requires k !in Keys(fields[..n - 1])
    ensures Put(fields[..n - 1], k, x) == fields[..n]
  {
    PutFresh(fields[..n - 1], k, x);
    PrefixSnoc(fields, n);
  }

  lemma PrefixSnoc<T>(s: seq<T>, n: nat)
    requires 0 < n <= |s|
    ensures s[..n] == s[..n - 1] + [s[n - 1]]
  {
  }

  /** In a list with distinct keys, the key at `m` is not among those before it. */
  lemma FreshInPrefix(fields: seq<(string, Value)>, m: nat)
    requires DistinctKeys(fields) && m < |fields|
    ensures fields[m].0 !in Keys(fields[..m])
  {
    var pre := fields[..m];
    forall j | 0 <= j < m ensures Keys(pre)[j] != fields[m].0 {
      assert Keys(pre)[j] == fields[j].0;
    }
  }

  /** With an allow-list, a well-formed object is copied to exactly the
      properties the list names, in their original order, with their values. */
  lemma {:induction false} CloneRestricts(fields: seq<(string, Value)>, allow: Option<seq<string>>)
    requires WellFormed(Obj(fields))
    ensures CloneOf(Obj(fields), allow) == Obj(Kept(fields, allow))
  {
    CopyFieldsKept(fields, allow, |fields|);
    assert fields[..|fields|] == fields;
  }

  lemma {:induction false} CopyFieldsKept(fields: seq<(string, Value)>, allow: Option<seq<string>>, n: nat)
    requires WellFormed(Obj(fields)) && n <= |fields|
    ensures CopyFields(fields, allow, n) == Kept(fields[..n], allow)
  {
    if n > 0 {
      var k := fields[n - 1].0;
      CopyFieldsKept(fields, allow, n - 1);
      assert fields[..n][..n - 1] == fields[..n - 1];
      if Allowed(allow, k) {
        CloneIdentity(fields[n - 1].1);
        FreshInPrefix(fields, n - 1);
        PutFresh(CopyFields(fields, allow, n - 1), k, fields[n - 1].1);
      }
    }
  }

  // ---------------------------------------------------------------------
  // transformToArray and pad

  /** `transformToArray(v)`: an array comes back as it is; any other value,
      `undefined` included, becomes a one-element list. */
  function TransformToArray(v: Value): (r: seq<Value>)
    ensures v.Arr? ==> r == v.items
    ensures !v.Arr? ==> r == [v]
    ensures Parsed(v) ==> forall i :: 0 <= i < |r| ==> Parsed(r[i])
  {
    if v.Arr? then v.items else [v]
  }

  /** `pad(text, length)`: `text` preceded by as many zeros as it lacks. */
  function Pad(text: string, length: int): (r: string)
    ensures |r| == if length > |text| then length else |text|
    ensures r[|r| - |text|..] == text
    ensures forall i :: 0 <= i < |r| - |text| ==> r[i] == '0'
    ensures |text| >= length ==> r == text
  {
    var resto := length - |text|;
    Repeat('0', if resto > 0 then resto else 0) + text
  }

  /** A decimal number below `10^width` padded to `width` has exactly `width` digits. */
  lemma PadDigits(n: nat, width: nat)
    requires 1 <= width <= 4
    requires width == 1 ==> n < 10
    requires width == 2 ==> n < 100
    requires width == 3 ==> n < 1000
    requires width == 4 ==> n < 10000
    ensures |Pad(NatToString(n), width)| == width && AllDigits(Pad(NatToString(n), width))
  {
    var t := NatToString(n);
    var r := Pad(t, width);
    forall i | 0 <= i < |r| ensures IsDigit(r[i]) {
      if i >= |r| - |t| {
        assert r[i] == r[|r| - |t|..][i - (|r| - |t|)] == t[i - (|r| - |t|)];
      }
    }
  }

  // ---------------------------------------------------------------------
  // dateToStr

  const DefaultDateFormat := "DD/MM/YYYY"

  /** The replacement text of each date token. */
  datatype Tokens = Tokens(yyyy: string, yy: string, mm: string, dd: string, hh: string,
                           nn: string, ss: string, zzz: string)

  /** The tokens of a date: the year padded to four digits and its last two
      characters, the 1-based month, and the other UTC fields, zero-padded. */
  function TokensOf(d: UtcDate): Tokens {
    var yyyy := Pad(IntToString(d.year), 4);
    Tokens(yyyy, yyyy[|yyyy| - 2..], Pad(NatToString(d.month + 1), 2), Pad(NatToString(d.day), 2),
           Pad(NatToString(d.hours), 2), Pad(NatToString(d.minutes), 2), Pad(NatToString(d.seconds), 2),
           Pad(NatToString(d.millis), 3))
  }

  /** The chain of first-occurrence replacements, in the source's order. */
  function Fill(f: string, t: Tokens): string {
    var f1 := ReplaceFirst(f, "YYYY", t.yyyy);
    var f2 := ReplaceFirst(f1, "YY", t.yy);
    var f3 := ReplaceFirst(f2, "MM", t.mm);
    var f4 := ReplaceFirst(f3, "DD", t.dd);
    var f5 := ReplaceFirst(f4, "HH", t.hh);
    var f6 := ReplaceFirst(f5, "MM", t.nn);
    var f7 := ReplaceFirst(f6, "NN", t.nn);
    var f8 := ReplaceFirst(f7, "SS", t.ss);
    ReplaceFirst(f8, "ZZZ", t.zzz)
  }

  /** `dateToStr(date, format)`: the format is upper-cased, then the first
      occurrence of each token is replaced, in the fixed order YYYY, YY, MM
      (month), DD, HH, MM (minutes), NN, SS, ZZZ, by the UTC fields of the date.
      An absent date gives the empty string. */
  function DateToStr(date: Option<UtcDate>, format: string): (r: string)
    ensures date.None? ==> r == ""
  {
    match date
    case None => ""
    case Some(d) => Fill(ToUpper(format), TokensOf(d))
  }

  /** Once no capital letter is left, the remaining replacements change nothing. */
  lemma FillTail(s: string, t: Tokens)
    requires NoUpper(s)
    ensures ReplaceFirst(ReplaceFirst(ReplaceFirst(ReplaceFirst(ReplaceFirst(s, "HH", t.hh), "MM", t.nn), "NN", t.nn), "SS", t.ss), "ZZZ", t.zzz) == s
  {
    ReplaceAbsent(s, "HH", t.hh);
    ReplaceAbsent(s, "MM", t.nn);
    ReplaceAbsent(s, "NN", t.nn);
    ReplaceAbsent(s, "SS", t.ss);
    ReplaceAbsent(s, "ZZZ", t.zzz);
  }

  predicate IsUpper(c: char) {
    'A' <= c <= 'Z'
  }

  /** No capital letter occurs: no token of the format can start here. */
  predicate NoUpper(s: string) {
    forall c :: c in s ==> !IsUpper(c)
  }

  lemma DigitsNoUpper(s: string)
    requires AllDigits(s)
    ensures NoUpper(s)
  {
    forall c | c in s ensures !IsUpper(c) {
      var i :| 0 <= i < |s| && s[i] == c;
    }
  }

  /** The two-digit fields of a date in the usual calendar ranges. */
  predicate CalendarFields(d: UtcDate) {
    0 <= d.year < 10000 && d.month < 12 && d.day < 100 && d.hours < 100
    && d.minutes < 100 && d.seconds < 100 && d.millis < 1000
  }

  /** The padded fields of a date: four year digits, two digits each for the
      1-based month, the day, the hours and the minutes. */
  function Year4(d: UtcDate): string requires 0 <= d.year { Pad(NatToString(d.year), 4) }
  function Month2(d: UtcDate): string { Pad(NatToString(d.month + 1), 2) }
  function Day2(d: UtcDate): string { Pad(NatToString(d.day), 2) }
  function Hours2(d: UtcDate): string { Pad(NatToString(d.hours), 2) }
  function Minutes2(d: UtcDate): string { Pad(NatToString(d.minutes), 2) }

  lemma CalendarDigits(d: UtcDate)
    requires CalendarFields(d)
    ensures |Year4(d)| == 4 && AllDigits(Year4(d)) && NoUpper(Year4(d))
    ensures |Month2(d)| == 2 && AllDigits(Month2(d)) && NoUpper(Month2(d))
    ensures |Day2(d)| == 2 && AllDigits(Day2(d)) && NoUpper(Day2(d))
    ensures |Hours2(d)| == 2 && AllDigits(Hours2(d)) && NoUpper(Hours2(d))
    ensures |Minutes2(d)| == 2 && AllDigits(Minutes2(d)) && NoUpper(Minutes2(d))
  {
    PadDigits(d.year, 4);
    PadDigits(d.month + 1, 2);
    PadDigits(d.day, 2);
    PadDigits(d.hours, 2);
    PadDigits(d.minutes, 2);
    DigitsNoUpper(Year4(d));
    DigitsNoUpper(Month2(d));
    DigitsNoUpper(Day2(d));
    DigitsNoUpper(Hours2(d));
    DigitsNoUpper(Minutes2(d));
  }

  /** The tokens of a date are its padded fields. */
  lemma TokensFields(d: UtcDate)
    requires 0 <= d.year
    ensures TokensOf(d).yyyy == Year4(d) && TokensOf(d).mm == Month2(d) && TokensOf(d).dd == Day2(d)
    ensures TokensOf(d).hh == Hours2(d) && TokensOf(d).nn == Minutes2(d)
  {
    assert IntToString(d.year) == NatToString(d.year);
  }

  /** The date formats used here, upper-cased. */
  lemma UpperFormat(f: string, g: string)
    requires (f == "YYYY-MM-DD" && g == f) || (f == DefaultDateFormat && g == f)
          || (f == "dd/mm/yyyy hh:mm" && g == "DD/MM/YYYY HH:MM")
    ensures ToUpper(f) == g
  {
  }

  /** The ISO layout used in requests: a four-digit year, the 1-based month
      and the day, each zero-padded, from the UTC fields; the result is ten
      characters long. */
  lemma DateToStrIso(d: UtcDate)
    requires CalendarFields(d)
    ensures DateToStr(Some(d), "YYYY-MM-DD") == Year4(d) + "-" + Month2(d) + "-" + Day2(d)
    ensures |DateToStr(Some(d), "YYYY-MM-DD")| == 10
  {
    CalendarDigits(d);
    TokensFields(d);
    UpperFormat("YYYY-MM-DD", "YYYY-MM-DD");
    FillIso(TokensOf(d));
  }

  lemma FillIso(t: Tokens)
    requires NoUpper(t.yyyy) && NoUpper(t.mm) && NoUpper(t.dd)
    ensures Fill("YYYY-MM-DD", t) == t.yyyy + "-" + t.mm + "-" + t.dd
  {
    IsoYearStep("YYYY-MM-DD", t.yyyy, t.yy);
    IsoMonthDayStep(t.yyyy, t.mm, t.dd);
    FillTail(t.yyyy + "-" + t.mm + "-" + t.dd, t);
  }

  lemma IsoYearStep(f0: string, y: string, yy: string)
    requires f0 == "YYYY-MM-DD" && NoUpper(y)
    ensures ReplaceFirst(ReplaceFirst(f0, "YYYY", y), "YY", yy) == y + "-" + "MM" + "-DD"
  {
    ReplaceAfter("", "YYYY", "-MM-DD", y);
    assert "" + "YYYY" + "-MM-DD" == f0;
    assert "" + y + "-MM-DD" == y + "-" + "MM" + "-DD";
    ReplaceAbsent(y + "-" + "MM" + "-DD", "YY", yy);
  }

  lemma IsoMonthDayStep(y: string, m: string, dd: string)
    requires NoUpper(y) && NoUpper(m)
    ensures ReplaceFirst(ReplaceFirst(y + "-" + "MM" + "-DD", "MM", m), "DD", dd) == y + "-" + m + "-" + dd
  {
    ReplaceAfter(y + "-", "MM", "-DD", m);
    assert (y + "-") + m + "-DD" == (y + "-" + m + "-") + "DD" + "";
    ReplaceAfter(y + "-" + m + "-", "DD", "", dd);
  }

  /** The default layout `DD/MM/YYYY`: day, 1-based month and four-digit year. */
  lemma DateToStrDefault(d: UtcDate)
    requires CalendarFields(d)
    ensures DateToStr(Some(d), DefaultDateFormat) == Day2(d) + "/" + Month2(d) + "/" + Year4(d)
  {
    CalendarDigits(d);
    TokensFields(d);
    UpperFormat(DefaultDateFormat, DefaultDateFormat);
    FillDefault(TokensOf(d));
  }

  lemma FillDefault(t: Tokens)
    requires NoUpper(t.yyyy) && NoUpper(t.mm) && NoUpper(t.dd)
    ensures Fill(DefaultDateFormat, t) == t.dd + "/" + t.mm + "/" + t.yyyy
  {
    var rest := "";
    assert DefaultDateFormat == "DD/MM/YYYY" + rest;
    YearStep(DefaultDateFormat, t.yyyy, rest);
    ShortYearStep(t.yyyy, rest, t.yy);
    MonthDayStep(t.yyyy, rest, t.mm, t.dd);
    var f := t.dd + "/" + t.mm + "/" + t.yyyy + rest;
    assert f == t.dd + "/" + t.mm + "/" + t.yyyy;
    FillTail(f, t);
  }

  /** A lower-case format is upper-cased first, and in `dd/mm/yyyy hh:mm` the
      second `MM` receives the minutes: the first was consumed by the month,
      and digits already substituted are never matched again. */
  lemma DateToStrMinutes(d: UtcDate)
    requires CalendarFields(d)
    ensures DateToStr(Some(d), "dd/mm/yyyy hh:mm")
         == Day2(d) + "/" + Month2(d) + "/" + Year4(d) + " " + Hours2(d) + ":" + Minutes2(d)
  {
    CalendarDigits(d);
    TokensFields(d);
    UpperFormat("dd/mm/yyyy hh:mm", "DD/MM/YYYY HH:MM");
    FillMinutes(TokensOf(d));
  }

  lemma FillMinutes(t: Tokens)
    requires NoUpper(t.yyyy) && NoUpper(t.mm) && NoUpper(t.dd) && NoUpper(t.hh) && NoUpper(t.nn)
    ensures Fill("DD/MM/YYYY HH:MM", t) == t.dd + "/" + t.mm + "/" + t.yyyy + " " + t.hh + ":" + t.nn
  {
    var date := t.dd + "/" + t.mm + "/" + t.yyyy;
    FillDateFirst("DD/MM/YYYY HH:MM", t);
    FillTimeAfter(date, t);
  }

  /** The date tokens of `DD/MM/YYYY HH:MM`. */
  lemma FillDateFirst(f0: string, t: Tokens)
    requires f0 == "DD/MM/YYYY HH:MM"
    requires NoUpper(t.yyyy) && NoUpper(t.mm) && NoUpper(t.dd)
    ensures ReplaceFirst(ReplaceFirst(ReplaceFirst(ReplaceFirst(f0, "YYYY", t.yyyy), "YY", t.yy), "MM", t.mm), "DD", t.dd)
         == t.dd + "/" + t.mm + "/" + t.yyyy + " HH:MM"
  {
    var rest := " HH:MM";
    YearStep(f0, t.yyyy, rest);
    ShortYearStep(t.yyyy, rest, t.yy);
    MonthDayStep(t.yyyy, rest, t.mm, t.dd);
  }

  lemma YearStep(f0: string, y: string, rest: string)
    requires f0 == "DD/MM/YYYY" + rest
    ensures ReplaceFirst(f0, "YYYY", y) == "DD/" + "MM" + ("/" + y + rest)
  {
    ReplaceAfter("DD/MM/", "YYYY", rest, y);
    assert "DD/MM/" + "YYYY" + rest == f0;
  }

  lemma ShortYearStep(y: string, rest: string, yy: string)
    requires NoUpper(y) && 'Y' !in rest
    ensures ReplaceFirst("DD/" + "MM" + ("/" + y + rest), "YY", yy) == "DD/" + "MM" + ("/" + y + rest)
  {
    ReplaceAbsent("DD/" + "MM" + ("/" + y + rest), "YY", yy);
  }

  lemma MonthDayStep(y: string, rest: string, m: string, dd: string)
    requires NoUpper(m)
    ensures ReplaceFirst(ReplaceFirst("DD/" + "MM" + ("/" + y + rest), "MM", m), "DD", dd)
         == dd + "/" + m + "/" + y + rest
  {
    ReplaceAfter("DD/", "MM", "/" + y + rest, m);
    assert "DD/" + m + ("/" + y + rest) == "" + "DD" + ("/" + m + "/" + y + rest);
    ReplaceAfter("", "DD", "/" + m + "/" + y + rest, dd);
    assert "" + dd == dd;
    SeqAppendAssoc(dd, "/", m);
    SeqAppendAssoc(dd, "/" + m, "/");
    SeqAppendAssoc(dd, "/" + m + "/", y);
    SeqAppendAssoc(dd, "/" + m + "/" + y, rest);
  }

  /** The time tokens after a date without capital letters: `HH` takes the
      hours and the remaining `MM` the minutes. */
  lemma FillTimeAfter(date: string, t: Tokens)
    requires NoUpper(date) && NoUpper(t.hh) && NoUpper(t.nn)
    ensures ReplaceFirst(ReplaceFirst(ReplaceFirst(ReplaceFirst(ReplaceFirst(date + " HH:MM", "HH", t.hh), "MM", t.nn), "NN", t.nn), "SS", t.ss), "ZZZ", t.zzz)
         == date + " " + t.hh + ":" + t.nn
  {
    HoursStep(date, t.hh);
    MinutesStep(date, t.hh, t.nn);
    var f := date + " " + t.hh + ":" + t.nn;
    assert NoUpper(f);
    ReplaceAbsent(f, "NN", t.nn);
    ReplaceAbsent(f, "SS", t.ss);
    ReplaceAbsent(f, "ZZZ", t.zzz);
  }

  lemma HoursStep(date: string, h: string)
    requires NoUpper(date)
    ensures ReplaceFirst(date + " HH:MM", "HH", h) == date + " " + h + ":MM"
  {
    var a := date + " ";
    assert 'H' !in a;
    ReplaceAfter(a, "HH", ":MM", h);
    assert date + " HH:MM" == a + "HH" + ":MM";
  }

  lemma MinutesStep(date: string, h: string, n: string)
    requires NoUpper(date) && NoUpper(h)
    ensures ReplaceFirst(date + " " + h + ":MM", "MM", n) == date + " " + h + ":" + n
  {
    var b := date + " " + h + ":";
    assert 'M' !in b;
    ReplaceAfter(b, "MM", "", n);
    assert date + " " + h + ":MM" == b + "MM" + "";
  }

  /** The request fixture: 1 January 2020 is written `2020-01-01`. */
  lemma DateToStrFixture(d: UtcDate)
    requires d == UtcDate(2020, 0, 1, 0, 0, 0, 0)
    ensures DateToStr(Some(d), "YYYY-MM-DD") == "2020-01-01"
  {
    DateToStrIso(d);
    var y, m, dd := Year4(d), Month2(d), Day2(d);
    assert y == "2020" by { Year2020(d); }
    assert m == "01" && dd == "01" by { PadOne(d); }
    IsoFixtureText(y, m, dd);
  }

  lemma IsoFixtureText(y: string, m: string, dd: string)
    requires y == "2020" && m == "01" && dd == "01"
    ensures y + "-" + m + "-" + dd == "2020-01-01"
  {
  }

  lemma PadOne(d: UtcDate)
    requires d.month == 0 && d.day == 1
    ensures Month2(d) == "01" && Day2(d) == "01"
  {
    assert NatToString(1) == "1";
    assert Repeat('0', 1) == "0";
  }

  lemma Year2020(d: UtcDate)
    requires d.year == 2020
    ensures Year4(d) == "2020"
  {
    assert NatToString(2) == "2";
    assert NatToString(20) == "20";
    assert NatToString(202) == "202";
    assert NatToString(2020) == "2020";
  }

  // ---------------------------------------------------------------------
  // strToDate

  /** `s.substring(0, 2)`. */
  function Prefix2(s: string): (r: string)
    ensures |s| >= 2 ==> r == s[..2]
    ensures |s| < 2 ==> r == s
  {
    if |s| >= 2 then s[..2] else s
  }

  /** How a template literal renders a string that may be `undefined`. */
  function Render(part: Option<string>): string {
    match part
    case None => "undefined"
    case Some(t) => t
  }

  /** The text that `strToDate(s)` hands to `new Date`: the part before the
      first space is split on `/` into day, month and year and rearranged as
      `year-month-dayZ`; a two-character year is prefixed with the first two
      characters of the current UTC year, and a missing part renders as
      `undefined`. */
  function StrToDateText(s: string, currentYear: int): string {
    DateHead(s, currentYear) + "-" + DayPart(s) + "Z"
  }

  /** The day: the text before the first `/` of the first word. */
  function DayPart(s: string): string {
    Split(Split(s, ' ')[0], '/')[0]
  }

  /** The year and the month, as the template literal renders them. */
  function DateHead(s: string, currentYear: int): string {
    var parts := Split(Split(s, ' ')[0], '/');
    var month := if |parts| > 1 then Some(parts[1]) else None;
    var fullYear := if |parts| > 2 then Some(parts[2]) else None;
    var year :=
      if fullYear.Some? && |fullYear.value| == 2
      then Some(Prefix2(IntToString(currentYear)) + fullYear.value)
      else fullYear;
    Render(year) + "-" + Render(month)
  }

  /** A text that ends with `-<day>Z` has that suffix. */
  lemma DaySuffix(head: string, day: string)
    ensures var text := head + "-" + day + "Z";
      |text| >= |day| + 2 && text[|text| - |day| - 2..] == "-" + day + "Z"
  {
    var text := head + "-" + day + "Z";
    assert text == head + ("-" + day + "Z");
  }

  /** `strToDate(s)`: the Date built from that text (date parsing is not modelled). */
  function StrToDate(s: string, currentYear: int): (r: Value)
    ensures r.DateVal? && r.date.NewDate? && r.date.arg.Str?
    ensures var text, day := r.date.arg.s, DayPart(s);
      |text| >= |day| + 2 && text[|text| - |day| - 2..] == "-" + day + "Z"
  {
    DaySuffix(DateHead(s, currentYear), DayPart(s));
    DateVal(NewDate(Str(StrToDateText(s, currentYear))))
  }

  /** A `DD/MM/YYYY` string is rearranged to `YYYY-MM-DDZ`; any year that is
      not two characters long is kept as written. */
  lemma StrToDateDmy(day: string, month: string, year: string, currentYear: int)
    requires '/' !in day && '/' !in month && '/' !in year
    requires ' ' !in day && ' ' !in month && ' ' !in year
    requires |year| != 2
    ensures StrToDateText(day + "/" + month + "/" + year, currentYear) == year + "-" + month + "-" + day + "Z"
  {
    var s := day + "/" + month + "/" + year;
    assert ' ' !in s;
    SplitNone(s, ' ');
    SplitParts(day, month, year);
  }

  /** A two-character year takes the century of the current UTC year. */
  lemma StrToDateShortYear(day: string, month: string, year: string, currentYear: int)
    requires '/' !in day && '/' !in month && '/' !in year
    requires ' ' !in day && ' ' !in month && ' ' !in year
    requires |year| == 2 && 1000 <= currentYear < 10000
    ensures StrToDateText(day + "/" + month + "/" + year, currentYear)
         == NatToString(currentYear)[..2] + year + "-" + month + "-" + day + "Z"
  {
    var s := day + "/" + month + "/" + year;
    assert ' ' !in s;
    SplitNone(s, ' ');
    SplitParts(day, month, year);
  }

  lemma SplitParts(day: string, month: string, year: string)
    requires '/' !in day && '/' !in month && '/' !in year
    ensures Split(day + "/" + month + "/" + year, '/') == [day, month, year]
  {
    SlashJoin(day, month, year);
    SplitFirst(day, '/', month + ['/'] + year);
    SplitFirst(month, '/', year);
    SplitNone(year, '/');
  }

  lemma SlashJoin(a: string, b: string, c: string)
    ensures a + "/" + b + "/" + c == a + ['/'] + (b + ['/'] + c)
  {
  }

  /** Everything from the first space on, such as a time of day, is ignored. */
  lemma StrToDateIgnoresTime(date: string, time: string, currentYear: int)
    requires ' ' !in date
    ensures StrToDateText(date + " " + time, currentYear) == StrToDateText(date, currentYear)
  {
    SplitFirst(date, ' ', time);
    assert date + " " + time == date + [' '] + time;
    SplitNone(date, ' ');
  }

  /** The reservation fixture: `22/10/2016` is 22 October 2016, UTC. */
  lemma StrToDateFixture(s: string, currentYear: int)
    requires s == "22/10/2016"
    ensures StrToDateText(s, currentYear) == "2016-10-22Z"
  {
    FixtureParts(s);
    StrToDateDmy("22", "10", "2016", currentYear);
    FixtureText("22", "10", "2016");
  }

  lemma FixtureParts(s: string)
    requires s == "22/10/2016"
    ensures s == "22" + "/" + "10" + "/" + "2016"
  {
  }

  lemma FixtureText(d: string, m: string, y: string)
    requires d == "22" && m == "10" && y == "2016"
    ensures y + "-" + m + "-" + d + "Z" == "2016-10-22Z"
  {
  }

  // ---------------------------------------------------------------------
  // getXmlString, getXmlNumber, getXmlBoolean

  /** The text of an XML scalar: a string is itself; an object whose `_text`
      is truthy yields the text of that; `undefined` and anything else yield
      the empty string. */
  function GetXmlString(v: Value): (r: string)
    requires Plain(v)
    ensures v.Undef? ==> r == ""
    ensures v.Str? ==> r == v.s
    ensures !v.Str? && !v.Obj? ==> r == ""
  {
    match v
    case Str(s) => s
    case Obj(fields) =>
      (match FindKey(fields, "_text")
       case Some(i) =>
         assert fields[i] in fields && Plain(fields[i].1);
         if Truthy(fields[i].1) then GetXmlString(fields[i].1) else ""
       case None => "")
    case _ => ""
  }

  /** The number of an XML scalar: a number is itself; a string is parsed
      after its first comma is turned into a point; an object whose `_text`
      is truthy yields the number of that; anything else is `undefined`. */
  function GetXmlNumber(v: Value): (r: Value)
    requires Plain(v)
    ensures r.Undef? || r.Num? || r.Float?
    ensures v.Num? ==> r == v
    ensures v.Str? ==> r == Float(ReplaceFirst(v.s, ",", "."))
    ensures !v.Num? && !v.Str? && !v.Obj? ==> r == Undef
  {
    match v
    case Num(_) => v
    case Str(s) => Float(ReplaceFirst(s, ",", "."))
    case Obj(fields) =>
      (match FindKey(fields, "_text")
       case Some(i) =>
         assert fields[i] in fields && Plain(fields[i].1);
         if Truthy(fields[i].1) then GetXmlNumber(fields[i].1) else Undef
       case None => Undef)
    case _ => Undef
  }

  /** The flag of an XML scalar: its text, trimmed and lower-cased, is `true`. */
  predicate GetXmlBoolean(v: Value)
    requires Plain(v)
    ensures !v.Str? && !v.Obj? ==> !GetXmlBoolean(v)
  {
    assert Trim("") == "";
    ToLower(Trim(GetXmlString(v))) == "true"
  }

  /** `n` nested `{_text: ...}` wrappers around a leaf. */
  function Wrapped(n: nat, leaf: Value): (r: Value)
    ensures Plain(leaf) ==> Plain(r)
  {
    if n == 0 then leaf else Obj([("_text", Wrapped(n - 1, leaf))])
  }

  /** However deeply a string is wrapped in `_text`, its text is found. */
  lemma {:induction false} GetXmlStringWrapped(n: nat, s: string)
    ensures GetXmlString(Wrapped(n, Str(s))) == s
  {
    if n > 0 {
      GetXmlStringWrapped(n - 1, s);
      var inner := Wrapped(n - 1, Str(s));
      assert FindKey([("_text", inner)], "_text") == Some(0);
      if s == "" {
        WrappedEmpty(n - 1);
      }
    }
  }

  /** A wrapped empty string is falsy only at the innermost level. */
  lemma WrappedEmpty(n: nat)
    ensures Truthy(Wrapped(n, Str("")) ) <==> n > 0
  {
  }

  /** However deeply a non-empty string is wrapped, it is parsed as a number
      with its first comma read as a decimal point. */
  lemma {:induction false} GetXmlNumberWrapped(n: nat, s: string)
    requires s != "" || n == 0
    ensures GetXmlNumber(Wrapped(n, Str(s))) == Float(ReplaceFirst(s, ",", "."))
  {
    if n > 0 {
      GetXmlNumberWrapped(n - 1, s);
      var inner := Wrapped(n - 1, Str(s));
      assert FindKey([("_text", inner)], "_text") == Some(0);
      WrappedNonEmpty(n - 1, s);
    }
  }

  lemma WrappedNonEmpty(n: nat, s: string)
    requires s != ""
    ensures Truthy(Wrapped(n, Str(s)))
  {
  }

  /** The text is `true` in any letter case, surrounded by nothing but white space. */
  predicate TrueText(s: string) {
    exists i, j :: 0 <= i <= j <= |s| && AllSpace(s[..i]) && AllSpace(s[j..]) && ToLower(s[i..j]) == "true"
  }

  /** The flag is true exactly when the text is `true` in any letter case,
      surrounded by nothing but white space. */
  lemma GetXmlBooleanIff(v: Value)
    requires Plain(v)
    ensures GetXmlBoolean(v) <==> TrueText(GetXmlString(v))
  {
    var s := GetXmlString(v);
    if GetXmlBoolean(v) {
      TrimmedTrue(s);
    }
    if TrueText(s) {
      var i, j :| 0 <= i <= j <= |s| && AllSpace(s[..i]) && AllSpace(s[j..]) && ToLower(s[i..j]) == "true";
      SurroundedTrue(s, i, j);
    }
  }

  lemma TrimmedTrue(s: string)
    requires ToLower(Trim(s)) == "true"
    ensures TrueText(s)
  {
    var i, j := TrimBounds(s);
    TrueTextAt(s, i, j);
  }

  lemma TrueTextAt(s: string, i: nat, j: nat)
    requires i <= j <= |s| && AllSpace(s[..i]) && AllSpace(s[j..]) && ToLower(s[i..j]) == "true"
    ensures TrueText(s)
  {
  }

  lemma SurroundedTrue(s: string, i: nat, j: nat)
    requires i <= j <= |s| && AllSpace(s[..i]) && AllSpace(s[j..]) && ToLower(s[i..j]) == "true"
    ensures ToLower(Trim(s)) == "true"
  {
    var t := s[i..j];
    assert |t| == 4 && LowerChar(t[0]) == 't' && LowerChar(t[3]) == 'e';
    assert s == s[..i] + t + s[j..];
    TrimSurrounded(s[..i], t, s[j..]);
  }

  /** `TRUE` reads as true: letter case does not matter. */
  lemma FlagUpper(s: string)
    requires s == "TRUE"
    ensures GetXmlBoolean(Str(s))
  {
    SurroundedTrue(s, 0, 4);
  }

  /** ` true ` reads as true: surrounding white space does not matter. */
  lemma FlagPadded(s: string)
    requires s == " true "
    ensures GetXmlBoolean(Str(s))
  {
    assert s[..1] == " " && s[5..] == " " && s[1..5] == "true";
    SurroundedTrue(s, 1, 5);
  }

  /** `false` reads as false. */
  lemma FlagFalse(s: string)
    requires s == "false"
    ensures !GetXmlBoolean(Str(s))
  {
    TrimSurrounded("", s, "");
    assert "" + s + "" == s;
  }

  // ---------------------------------------------------------------------
  // cloneXmlStrings, cloneXmlNumbers, cloneXmlBooleans

  /** Which reader a field copy applies. */
  datatype Conversion = AsStrings | AsNumbers | AsBooleans

  function Convert(c: Conversion, v: Value): (r: Value)
    requires Plain(v)
    ensures c == AsStrings ==> r.Str?
    ensures c == AsBooleans ==> r.Bool?
  {
    match c
    case AsStrings => Str(GetXmlString(v))
    case AsNumbers => GetXmlNumber(v)
    case AsBooleans => Bool(GetXmlBoolean(v))
  }

  /** The copy after the loop has visited `keys`: each key that is an own
      property of `obj` is assigned its converted value, and no other. */
  function PickFields(obj: Value, keys: seq<string>, c: Conversion): (r: seq<(string, Value)>)
    requires Plain(obj) && !obj.Undef?
    ensures forall k :: k in Keys(r) <==> k in keys && Has(obj, k)
    ensures forall k :: k in Keys(r) ==> Lookup(r, k) == Convert(c, Get(obj, k))
    ensures DistinctKeys(r)
    decreases |keys|
  {
    if |keys| == 0 then []
    else
      var init := keys[..|keys| - 1];
      var k := keys[|keys| - 1];
      assert keys == init + [k];
      var acc := PickFields(obj, init, c);
      if Has(obj, k) then
        PutDistinct(acc, k, Convert(c, Get(obj, k)));
        Put(acc, k, Convert(c, Get(obj, k)))
      else acc
  }

  /** `cloneXmlStrings(obj, fields)` and its two siblings: without a field list
      every own key of `obj` is used. `Object.keys(undefined)` and the own-property
      test on `undefined` throw a TypeError; with an empty list the loop never
      runs and the result is empty. */
  function XmlFieldsOf(obj: Value, fields: Option<seq<string>>, c: Conversion): (r: Result<seq<(string, Value)>>)
    requires Plain(obj)
    ensures r.Throw? <==> obj.Undef? && (fields.None? || |fields.value| > 0)
    ensures r.Throw? ==> r.error == TypeError
    ensures obj.Undef? && fields == Some([]) ==> r == Ok([])
  {
    if obj.Undef? then
      if fields.Some? && |fields.value| == 0 then Ok([]) else Throw(TypeError)
    else
      Ok(PickFields(obj, if fields.Some? then fields.value else OwnKeys(obj), c))
  }

  /** `cloneXmlStrings(obj)` on a defined value: every own property, as text. */
  function AllStrings(obj: Value): seq<(string, Value)>
    requires Plain(obj) && !obj.Undef?
  {
    PickFields(obj, OwnKeys(obj), AsStrings)
  }

  /** The loop of `cloneXml*`, assigning into a fresh `result` one key at a time. */
  method CloneXml(obj: Value, fields: Option<seq<string>>, c: Conversion) returns (r: Result<seq<(string, Value)>>)
    requires Plain(obj)
    ensures r == XmlFieldsOf(obj, fields, c)
  {
    if obj.Undef? && (fields.None? || |fields.value| > 0) {
      return Throw(TypeError);
    }
    if obj.Undef? {
      return Ok([]);
    }
    var keys := if fields.Some? then fields.value else OwnKeys(obj);
    var result := PickLoop(obj, keys, c);
    return Ok(result);
  }

  /** The `for (const key of fields)` loop itself. */
  method PickLoop(obj: Value, keys: seq<string>, c: Conversion) returns (result: seq<(string, Value)>)
    requires Plain(obj) && !obj.Undef?
    ensures result == PickFields(obj, keys, c)
  {
    result := [];
    for i := 0 to |keys|
      invariant result == PickFields(obj, keys[..i], c)
    {
      PickFieldsStep(obj, keys, i, c);
      if Has(obj, keys[i]) {
        result := Put(result, keys[i], Convert(c, Get(obj, keys[i])));
      }
    }
    assert keys[..|keys|] == keys;
  }

  /** One more key visited by the loop of `cloneXml*`. */
  lemma PickFieldsStep(obj: Value, keys: seq<string>, i: nat, c: Conversion)
    requires Plain(obj) && !obj.Undef? && i < |keys|
    ensures PickFields(obj, keys[..i + 1], c)
         == if Has(obj, keys[i]) then Put(PickFields(obj, keys[..i], c), keys[i], Convert(c, Get(obj, keys[i])))
            else PickFields(obj, keys[..i], c)
  {
    assert keys[..i + 1][..i] == keys[..i];
  }

  predicate Distinct(keys: seq<string>) {
    forall i, j :: 0 <= i < j < |keys| ==> keys[i] != keys[j]
  }

  /** The reference for the key order: the listed keys that `obj` owns, in list order. */
  function Owned(obj: Value, keys: seq<string>): seq<string>
    requires !obj.Undef?
  {
    if |keys| == 0 then []
    else
      var rest := Owned(obj, keys[..|keys| - 1]);
      if Has(obj, keys[|keys| - 1]) then rest + [keys[|keys| - 1]] else rest
  }

  /** With a list of distinct keys, the copy has the listed own keys in list order. */
  lemma {:induction false} PickFieldsOrder(obj: Value, keys: seq<string>, c: Conversion)
    requires Plain(obj) && !obj.Undef? && Distinct(keys)
    ensures Keys(PickFields(obj, keys, c)) == Owned(obj, keys)
    decreases |keys|
  {
    if |keys| > 0 {
      var init := keys[..|keys| - 1];
      var k := keys[|keys| - 1];
      assert keys == init + [k];
      PickFieldsOrder(obj, init, c);
      if Has(obj, k) {
        assert k !in init by {
          forall j | 0 <= j < |init| ensures init[j] != k {
            assert init[j] == keys[j];
          }
        }
        PutFresh(PickFields(obj, init, c), k, Convert(c, Get(obj, k)));
      }
    }
  }

  lemma {:induction false} OwnedAll(obj: Value, keys: seq<string>)
    requires !obj.Undef? && forall k :: k in keys ==> Has(obj, k)
    ensures Owned(obj, keys) == keys
    decreases |keys|
  {
    if |keys| > 0 {
      assert keys == keys[..|keys| - 1] + [keys[|keys| - 1]];
      OwnedAll(obj, keys[..|keys| - 1]);
    }
  }

  /** Without a field list, every property of the object is copied, in order. */
  lemma XmlFieldsAll(fields: seq<(string, Value)>, c: Conversion)
    requires Plain(Obj(fields)) && DistinctKeys(fields)
    ensures XmlFieldsOf(Obj(fields), None, c).Ok?
    ensures Keys(XmlFieldsOf(Obj(fields), None, c).value) == Keys(fields)
  {
    var ks := Keys(fields);
    forall i, j | 0 <= i < j < |ks| ensures ks[i] != ks[j] {
      assert ks[i] == fields[i].0 && ks[j] == fields[j].0;
    }
    PickFieldsOrder(Obj(fields), ks, c);
    OwnedAll(Obj(fields), ks);
  }

  /** `cloneXmlStrings` of an element: every one of its properties, as text, in order. */
  lemma AllStringsFields(fields: seq<(string, Value)>)
    requires Plain(Obj(fields)) && DistinctKeys(fields)
    ensures Keys(AllStrings(Obj(fields))) == Keys(fields)
    ensures forall k :: k in Keys(fields) ==> Lookup(AllStrings(Obj(fields)), k) == Str(GetXmlString(Lookup(fields, k)))
  {
    XmlFieldsAll(fields, AsStrings);
  }

  /** The finished allow-listed copy is the reference `Kept`. */
  lemma CopyAll(fields: seq<(string, Value)>, allow: Option<seq<string>>)
    requires WellFormed(Obj(fields))
    ensures CopyFields(fields, allow, |fields|) == Kept(fields, allow)
  {
    CopyFieldsKept(fields, allow, |fields|);
    assert fields[..|fields|] == fields;
  }

  /** Assigning a property the allow-list excludes after an allow-listed copy
      appends it to the properties kept. */
  lemma CopyThenFresh(fields: seq<(string, Value)>, allow: Option<seq<string>>, k: string, x: Value)
    requires WellFormed(Obj(fields)) && !Allowed(allow, k)
    ensures Put(CopyFields(fields, allow, |fields|), k, x) == Kept(fields, allow) + [(k, x)]
  {
    CopyAll(fields, allow);
    PutFresh(Kept(fields, allow), k, x);
  }

  /** Two properties the allow-list excludes, assigned after an allow-listed
      copy, are appended in turn. */
  lemma CopyThenTwo(fields: seq<(string, Value)>, allow: Option<seq<string>>, a: string, x: Value, b: string, y: Value)
    requires WellFormed(Obj(fields)) && !Allowed(allow, a) && !Allowed(allow, b) && a != b
    ensures Put(Put(CopyFields(fields, allow, |fields|), a, x), b, y) == Kept(fields, allow) + [(a, x), (b, y)]
  {
    CopyAll(fields, allow);
    PutTwoFresh(Kept(fields, allow), a, x, b, y);
  }
}
