/** The JavaScript values the client handles: the compact tree that the XML
    parser produces (objects, arrays, strings), the objects the adapters build
    from it, and the property operations on them (read, own-property test,
    `Object.keys`, assignment and object spread). */
module JsValue {
  import opened JsString

  /** Calendar fields of a Date as its `getUTC*` getters report them
      (`month` is 0-based, as `getUTCMonth`). */
  datatype UtcDate = UtcDate(year: int, month: nat, day: nat, hours: nat, minutes: nat, seconds: nat, millis: nat)

  datatype Value =
    | Undef
    | Bool(b: bool)
    | Num(n: int)
    /** The number that `parseFloat(text)` yields; float parsing is not modelled. */
    | Float(text: string)
    | Str(s: string)
    | DateVal(date: JsDate)
    /** An object; its properties in insertion order (JavaScript would list
        integer-like keys first, which XML names never are). */
    | Obj(fields: seq<(string, Value)>)
    | Arr(items: seq<Value>)

  datatype JsDate =
    /** `new Date(arg)`; date parsing is not modelled. */
    | NewDate(arg: Value)
    /** A Date whose UTC calendar fields are known. */
    | Utc(utc: UtcDate)

  /** What a `throw` carries. */
  datatype JsError =
    /** Property read on `undefined`, or `Object.keys(undefined)`. */
    | TypeError
    /** A value thrown by the client itself. */
    | Thrown(value: Value)

  datatype Result<+T> = Ok(value: T) | Throw(error: JsError)

  /** No value produced by `parseFloat` inside: truthiness is decidable. */
  predicate Plain(v: Value)
    ensures Plain(v) ==> !v.Float?
  {
    match v
    case Float(_) => false
    case Obj(fields) => forall i :: 0 <= i < |fields| ==> Plain(fields[i].1)
    case Arr(items) => forall i :: 0 <= i < |items| ==> Plain(items[i])
    case _ => true
  }

  /** `undefined` never appears as a value, inside or at the top. */
  predicate Defined(v: Value)
    ensures Defined(v) ==> !v.Undef?
  {
    match v
    case Undef => false
    case Obj(fields) => forall i :: 0 <= i < |fields| ==> Defined(fields[i].1)
    case Arr(items) => forall i :: 0 <= i < |items| ==> Defined(items[i])
    case _ => true
  }

  /** A tree as the XML parser's compact mode produces it: strings, objects
      and arrays, never `undefined`, and no parsed numbers. */
  predicate Parsed(v: Value)
    ensures Parsed(v) ==> !v.Undef?
  {
    Plain(v) && Defined(v)
  }

  /** JavaScript truthiness. */
  predicate Truthy(v: Value)
    requires !v.Float?
  {
    match v
    case Undef => false
    case Bool(b) => b
    case Num(n) => n != 0
    case Str(s) => s != ""
    case DateVal(_) => true
    case Obj(_) => true
    case Arr(_) => true
  }

  function Keys(fields: seq<(string, Value)>): (ks: seq<string>)
    ensures |ks| == |fields|
    ensures forall i :: 0 <= i < |fields| ==> ks[i] == fields[i].0
  {
    seq(|fields|, i requires 0 <= i < |fields| => fields[i].0)
  }

  predicate DistinctKeys(fields: seq<(string, Value)>) {
    forall i, j :: 0 <= i < j < |fields| ==> fields[i].0 != fields[j].0
  }

  /** Position of the property `k`. */
  function FindKey(fields: seq<(string, Value)>, k: string): (r: Option<nat>)
    ensures r.Some? ==> r.value < |fields| && fields[r.value].0 == k
    ensures r.Some? ==> forall j :: 0 <= j < r.value ==> fields[j].0 != k
    ensures r.None? <==> k !in Keys(fields)
  {
    if |fields| == 0 then None
    else if fields[0].0 == k then Some(0)
    else match FindKey(fields[1..], k)
      case None =>
        assert Keys(fields) == [fields[0].0] + Keys(fields[1..]);
        None
      case Some(i) => Some(i + 1)
  }

  /** `obj[k]` on an object: `undefined` when the property is missing. */
  function Lookup(fields: seq<(string, Value)>, k: string): (r: Value)
    ensures k !in Keys(fields) ==> r == Undef
  {
    match FindKey(fields, k)
    case None => Undef
    case Some(i) => fields[i].1
  }

  /** Reading a property of a non-empty property list: the first entry, or the rest. */
  lemma LookupCons(fields: seq<(string, Value)>)
    requires |fields| > 0
    ensures forall k :: Lookup(fields, k) == if fields[0].0 == k then fields[0].1 else Lookup(fields[1..], k)
  {
    forall k ensures Lookup(fields, k) == if fields[0].0 == k then fields[0].1 else Lookup(fields[1..], k) {
      if fields[0].0 != k {
        match FindKey(fields[1..], k)
        case None =>
        case Some(i) =>
      }
    }
  }

  /** The array index keys `"0"`, ..., `"n-1"`. */
  function IndexKeys(n: nat): (ks: seq<string>)
    ensures |ks| == n && forall i :: 0 <= i < n ==> ks[i] == NatToString(i)
  {
    seq(n, i requires 0 <= i < n => NatToString(i))
  }

  /** The index below `n` whose decimal form is `k`. */
  function IndexOfKey(k: string, n: nat, from: nat): (r: Option<nat>)
    requires from <= n
    decreases n - from
    ensures r.Some? ==> r.value < n
  {
    if from == n then None
    else if NatToString(from) == k then Some(from)
    else IndexOfKey(k, n, from + 1)
  }

  /** Property read `v[k]` on a value that is not `undefined` (reading a
      property of `undefined` throws; see `Member`). Arrays and strings expose
      their indices and `length`; other primitives and Dates have no such
      property. */
  function Get(v: Value, k: string): (r: Value)
    requires !v.Undef?
    ensures Plain(v) ==> Plain(r)
    ensures Defined(v) ==> r.Undef? || Defined(r)
    ensures Parsed(v) ==> r.Undef? || Parsed(r)
    ensures !v.Obj? && !v.Arr? && !v.Str? ==> r == Undef
    ensures v.Obj? ==> r == Lookup(v.fields, k)
  {
    match v
    case Obj(fields) =>
      (match FindKey(fields, k)
       case None => Undef
       case Some(i) => fields[i].1)
    case Arr(items) =>
      if k == "length" then Num(|items|)
      else (match IndexOfKey(k, |items|, 0)
        case Some(i) => items[i]
        case None => Undef)
    case Str(s) =>
      if k == "length" then Num(|s|)
      else (match IndexOfKey(k, |s|, 0)
        case Some(i) => Str([s[i]])
        case None => Undef)
    case _ => Undef
  }

  /** Property read `v.k` on any value: a TypeError on `undefined`. */
  function Member(v: Value, k: string): (r: Result<Value>)
    ensures r.Throw? <==> v.Undef?
    ensures r.Throw? ==> r.error == TypeError
  {
    if v.Undef? then Throw(TypeError) else Ok(Get(v, k))
  }

  /** `Object.prototype.hasOwnProperty.call(v, k)` on a value that is not `undefined`. */
  predicate Has(v: Value, k: string)
    requires !v.Undef?
  {
    match v
    case Obj(fields) => k in Keys(fields)
    case Arr(items) => k == "length" || IndexOfKey(k, |items|, 0).Some?
    case Str(s) => k == "length" || IndexOfKey(k, |s|, 0).Some?
    case _ => false
  }

  /** `Object.keys(v)` on a value that is not `undefined`. */
  function OwnKeys(v: Value): seq<string>
    requires !v.Undef?
  {
    match v
    case Obj(fields) => Keys(fields)
    case Arr(items) => IndexKeys(|items|)
    case Str(s) => IndexKeys(|s|)
    case _ => []
  }

  /** Property assignment `obj[k] = x`: an existing property keeps its place,
      a new one goes last. */
  function Put(fields: seq<(string, Value)>, k: string, x: Value): (r: seq<(string, Value)>)
    ensures Keys(r) == if k in Keys(fields) then Keys(fields) else Keys(fields) + [k]
    ensures Lookup(r, k) == x
    ensures forall k' :: k' != k ==> Lookup(r, k') == Lookup(fields, k')
    decreases |fields|
  {
    if |fields| == 0 then
      LookupCons([(k, x)]);
      [(k, x)]
    else if fields[0].0 == k then
      PutHere(fields, k, x);
      [(k, x)] + fields[1..]
    else
      var rest := Put(fields[1..], k, x);
      PutFurther(fields, k, x, rest);
      [fields[0]] + rest
  }

  /** Assigning the first property replaces its value in place. */
  lemma PutHere(fields: seq<(string, Value)>, k: string, x: Value)
    requires |fields| > 0 && fields[0].0 == k
    ensures Keys([(k, x)] + fields[1..]) == Keys(fields)
    ensures k in Keys(fields)
    ensures Lookup([(k, x)] + fields[1..], k) == x
    ensures forall k' :: k' != k ==> Lookup([(k, x)] + fields[1..], k') == Lookup(fields, k')
  {
    var r := [(k, x)] + fields[1..];
    assert Keys(fields)[0] == k;
    LookupCons(r);
    LookupCons(fields);
    assert r[1..] == fields[1..];
  }

  /** Assigning a property that is not the first one leaves the first in front. */
  lemma PutFurther(fields: seq<(string, Value)>, k: string, x: Value, rest: seq<(string, Value)>)
    requires |fields| > 0 && fields[0].0 != k
    requires Keys(rest) == if k in Keys(fields[1..]) then Keys(fields[1..]) else Keys(fields[1..]) + [k]
    requires Lookup(rest, k) == x
    requires forall k' :: k' != k ==> Lookup(rest, k') == Lookup(fields[1..], k')
    ensures Keys([fields[0]] + rest) == if k in Keys(fields) then Keys(fields) else Keys(fields) + [k]
    ensures Lookup([fields[0]] + rest, k) == x
    ensures forall k' :: k' != k ==> Lookup([fields[0]] + rest, k') == Lookup(fields, k')
  {
    PutFurtherKeys(fields, k, rest);
    PutFurtherLookup(fields, k, x, rest);
  }

  lemma PutFurtherKeys(fields: seq<(string, Value)>, k: string, rest: seq<(string, Value)>)
    requires |fields| > 0 && fields[0].0 != k
    requires Keys(rest) == if k in Keys(fields[1..]) then Keys(fields[1..]) else Keys(fields[1..]) + [k]
    ensures Keys([fields[0]] + rest) == if k in Keys(fields) then Keys(fields) else Keys(fields) + [k]
  {
    var r := [fields[0]] + rest;
    assert Keys(fields) == [fields[0].0] + Keys(fields[1..]);
    assert Keys(r) == [fields[0].0] + Keys(rest);
    assert k in Keys(fields) <==> k in Keys(fields[1..]);
  }

  lemma PutFurtherLookup(fields: seq<(string, Value)>, k: string, x: Value, rest: seq<(string, Value)>)
    requires |fields| > 0 && fields[0].0 != k
    requires Lookup(rest, k) == x
    requires forall k' :: k' != k ==> Lookup(rest, k') == Lookup(fields[1..], k')
    ensures Lookup([fields[0]] + rest, k) == x
    ensures forall k' :: k' != k ==> Lookup([fields[0]] + rest, k') == Lookup(fields, k')
  {
    var r := [fields[0]] + rest;
    LookupCons(r);
    LookupCons(fields);
    assert r[1..] == rest;
  }

  /** Assigning every property of `src` in order, as `{...target, ...src}`
      does for an object `src`. */
  function PutAll(target: seq<(string, Value)>, src: seq<(string, Value)>): (r: seq<(string, Value)>)
    ensures forall k :: k in Keys(r) <==> k in Keys(target) || k in Keys(src)
    ensures forall k :: k !in Keys(src) ==> Lookup(r, k) == Lookup(target, k)
    decreases |src|
  {
    if |src| == 0 then target
    else
      assert Keys(src) == [src[0].0] + Keys(src[1..]);
      PutAll(Put(target, src[0].0, src[0].1), src[1..])
  }

  lemma {:induction false} PutAllLookup(target: seq<(string, Value)>, src: seq<(string, Value)>, k: string)
    requires DistinctKeys(src)
    requires k in Keys(src)
    ensures Lookup(PutAll(target, src), k) == Lookup(src, k)
    decreases |src|
  {
    DistinctTail(src);
    var t := Put(target, src[0].0, src[0].1);
    assert PutAll(target, src) == PutAll(t, src[1..]);
    LookupCons(src);
    if src[0].0 != k {
      PutAllLookup(t, src[1..], k);
    }
  }

  /** The first key of a list with distinct keys is not repeated in its tail. */
  lemma DistinctTail(src: seq<(string, Value)>)
    requires DistinctKeys(src) && |src| > 0
    ensures DistinctKeys(src[1..])
    ensures src[0].0 !in Keys(src[1..])
    ensures Keys(src) == [src[0].0] + Keys(src[1..])
  {
    forall j | 0 <= j < |src[1..]| ensures Keys(src[1..])[j] != src[0].0 {
      assert src[1..][j] == src[j + 1];
    }
  }

  /** After assigning the first property of `src`, the rest of `src` is still fresh. */
  lemma FreshAfterPut(target: seq<(string, Value)>, src: seq<(string, Value)>)
    requires DistinctKeys(src) && |src| > 0
    requires forall k :: k in Keys(src) ==> k !in Keys(target)
    ensures Keys(Put(target, src[0].0, src[0].1)) == Keys(target) + [src[0].0]
    ensures forall k :: k in Keys(src[1..]) ==> k !in Keys(Put(target, src[0].0, src[0].1))
  {
    DistinctTail(src);
  }

  /** With fresh, distinct keys, spreading appends in order. */
  lemma {:induction false} PutAllAppends(target: seq<(string, Value)>, src: seq<(string, Value)>)
    requires DistinctKeys(src)
    requires forall k :: k in Keys(src) ==> k !in Keys(target)
    ensures Keys(PutAll(target, src)) == Keys(target) + Keys(src)
    decreases |src|
  {
    if |src| > 0 {
      DistinctTail(src);
      FreshAfterPut(target, src);
      var t := Put(target, src[0].0, src[0].1);
      PutAllAppends(t, src[1..]);
      PutAllAppendsStep(target, src, t);
    }
  }

  /** The inductive step of `PutAllAppends`: the first key, then the rest. */
  lemma PutAllAppendsStep(target: seq<(string, Value)>, src: seq<(string, Value)>, t: seq<(string, Value)>)
    requires |src| > 0 && t == Put(target, src[0].0, src[0].1)
    requires Keys(src) == [src[0].0] + Keys(src[1..])
    requires Keys(t) == Keys(target) + [src[0].0]
    requires Keys(PutAll(t, src[1..])) == Keys(t) + Keys(src[1..])
    ensures Keys(PutAll(target, src)) == Keys(target) + Keys(src)
  {
    assert PutAll(target, src) == PutAll(t, src[1..]);
    SeqAppendAssoc(Keys(target), [src[0].0], Keys(src[1..]));
  }

  /** Assigning a property that is not there yet appends it. */
  lemma {:induction false} PutFresh(fields: seq<(string, Value)>, k: string, x: Value)
    requires k !in Keys(fields)
    ensures Put(fields, k, x) == fields + [(k, x)]
    decreases |fields|
  {
    if |fields| > 0 {
      FreshTail(fields, k);
      PutFresh(fields[1..], k, x);
      PutFreshStep(fields, k, x);
    }
  }

  lemma FreshTail(fields: seq<(string, Value)>, k: string)
    requires |fields| > 0 && k !in Keys(fields)
    ensures fields[0].0 != k && k !in Keys(fields[1..])
  {
    assert Keys(fields)[0] == fields[0].0;
    forall j | 0 <= j < |fields| - 1 ensures Keys(fields[1..])[j] != k {
      assert Keys(fields[1..])[j] == Keys(fields)[j + 1];
    }
  }

  lemma PutFreshStep(fields: seq<(string, Value)>, k: string, x: Value)
    requires |fields| > 0 && fields[0].0 != k
    requires Put(fields[1..], k, x) == fields[1..] + [(k, x)]
    ensures Put(fields, k, x) == fields + [(k, x)]
  {
    var head, tail := fields[0], fields[1..];
    assert fields == [head] + tail;
    assert Put(fields, k, x) == [head] + Put(tail, k, x);
    SeqAppendAssoc([head], tail, [(k, x)]);
  }

  lemma SeqAppendAssoc<T>(a: seq<T>, b: seq<T>, c: seq<T>)
    ensures (a + b) + c == a + (b + c)
  {
  }

  /** Assignment never duplicates a property. */
  lemma PutDistinct(fields: seq<(string, Value)>, k: string, x: Value)
    requires DistinctKeys(fields)
    ensures DistinctKeys(Put(fields, k, x))
  {
    var r := Put(fields, k, x);
    forall i, j | 0 <= i < j < |r| ensures r[i].0 != r[j].0 {
      assert Keys(r)[i] == r[i].0 && Keys(r)[j] == r[j].0;
      if j < |fields| {
        assert Keys(fields)[i] == fields[i].0 && Keys(fields)[j] == fields[j].0;
      } else {
        assert Keys(r)[i] == Keys(fields)[i];
      }
    }
  }

  /** Spreading never duplicates a property. */
  lemma {:induction false} PutAllDistinct(target: seq<(string, Value)>, src: seq<(string, Value)>)
    requires DistinctKeys(target)
    ensures DistinctKeys(PutAll(target, src))
    decreases |src|
  {
    if |src| > 0 {
      PutDistinct(target, src[0].0, src[0].1);
      PutAllDistinct(Put(target, src[0].0, src[0].1), src[1..]);
    }
  }

  /** The own enumerable properties of `v`, in `Object.keys` order. */
  function Entries(v: Value): seq<(string, Value)>
    requires !v.Undef?
  {
    match v
    case Obj(fields) => fields
    case Arr(items) => seq(|items|, i requires 0 <= i < |items| => (NatToString(i), items[i]))
    case Str(s) => seq(|s|, i requires 0 <= i < |s| => (NatToString(i), Str([s[i]])))
    case Bool(_) => []
    case Num(_) => []
    case Float(_) => []
    case DateVal(_) => []
  }

  /** `{...target, ...v}`: spreading `undefined` adds nothing. */
  function Spread(target: seq<(string, Value)>, v: Value): seq<(string, Value)> {
    if v.Undef? then target else PutAll(target, Entries(v))
  }

  /** `{...target, ...(cond && {k: x})}`: the property is added only when
      `cond` is truthy (a falsy `cond` spreads nothing). */
  function PutIf(target: seq<(string, Value)>, cond: Value, k: string, x: Value): (r: seq<(string, Value)>)
    requires !cond.Float?
    ensures Truthy(cond) ==> r == Put(target, k, x)
    ensures !Truthy(cond) ==> r == target
  {
    if Truthy(cond) then Put(target, k, x)
    else
      assert cond.Str? ==> IndexKeys(|cond.s|) == [];
      Spread(target, cond)
  }

  /** A conditional spread of a property not there yet leaves the others alone. */
  lemma PutIfFresh(target: seq<(string, Value)>, cond: Value, k: string, x: Value)
    requires !cond.Float? && k !in Keys(target)
    ensures forall k' :: k' in Keys(PutIf(target, cond, k, x)) ==> k' in Keys(target) || k' == k
    ensures forall k' :: k' != k ==> (k' in Keys(PutIf(target, cond, k, x)) <==> k' in Keys(target))
    ensures forall k' :: k' != k ==> Lookup(PutIf(target, cond, k, x), k') == Lookup(target, k')
  {
  }

  /** One statement `if (cond) { result[key] = value; }`. */
  datatype Assignment = Assignment(key: string, cond: bool, value: Value)

  function StepKeys(steps: seq<Assignment>): (ks: seq<string>)
    ensures |ks| == |steps| && forall j :: 0 <= j < |steps| ==> ks[j] == steps[j].key
  {
    seq(|steps|, j requires 0 <= j < |steps| => steps[j].key)
  }

  predicate DistinctSteps(steps: seq<Assignment>) {
    forall i, j :: 0 <= i < j < |steps| ==> steps[i].key != steps[j].key
  }

  /** Running one statement. */
  function Perform(fields: seq<(string, Value)>, s: Assignment): seq<(string, Value)> {
    if s.cond then Put(fields, s.key, s.value) else fields
  }

  /** A run of guarded assignments onto an object, in order. */
  function Assign(fields: seq<(string, Value)>, steps: seq<Assignment>): seq<(string, Value)>
    decreases |steps|
  {
    if |steps| == 0 then fields
    else Assign(Perform(fields, steps[0]), steps[1..])
  }

  /** Five statements run one after the other. */
  lemma AssignFive(f: seq<(string, Value)>, a: Assignment, b: Assignment, c: Assignment, d: Assignment, e: Assignment)
    ensures Assign(f, [a, b, c, d, e]) == Perform(Perform(Perform(Perform(Perform(f, a), b), c), d), e)
  {
    var f1 := Perform(f, a);
    var f2 := Perform(f1, b);
    var f3 := Perform(f2, c);
    var f4 := Perform(f3, d);
    assert [a, b, c, d, e][1..] == [b, c, d, e];
    assert [b, c, d, e][1..] == [c, d, e];
    assert [c, d, e][1..] == [d, e];
    assert [d, e][1..] == [e];
    assert Assign(f4, [e]) == Perform(f4, e);
    assert Assign(f3, [d, e]) == Assign(f4, [e]);
    assert Assign(f2, [c, d, e]) == Assign(f3, [d, e]);
    assert Assign(f1, [b, c, d, e]) == Assign(f2, [c, d, e]);
  }

  /** Six statements run one after the other. */
  lemma AssignSix(f: seq<(string, Value)>, a: Assignment, b: Assignment, c: Assignment, d: Assignment, e: Assignment,
                  g: Assignment)
    ensures Assign(f, [a, b, c, d, e, g]) == Perform(Perform(Perform(Perform(Perform(Perform(f, a), b), c), d), e), g)
  {
    assert [a, b, c, d, e, g][1..] == [b, c, d, e, g];
    AssignFive(Perform(f, a), b, c, d, e, g);
  }

  /** A property no statement names is left as it was. */
  lemma {:induction false} AssignOther(fields: seq<(string, Value)>, steps: seq<Assignment>, k: string)
    requires k !in StepKeys(steps)
    ensures k in Keys(Assign(fields, steps)) <==> k in Keys(fields)
    ensures Lookup(Assign(fields, steps), k) == Lookup(fields, k)
    decreases |steps|
  {
    if |steps| > 0 {
      var s := steps[0];
      var next := Perform(fields, s);
      assert StepKeys(steps)[0] == s.key;
      assert k !in StepKeys(steps[1..]) by {
        forall j | 0 <= j < |steps| - 1 ensures StepKeys(steps[1..])[j] != k {
          assert StepKeys(steps[1..])[j] == StepKeys(steps)[j + 1];
        }
      }
      AssignOther(next, steps[1..], k);
    }
  }

  /** Every property after the statements was there before or is named by one of them. */
  lemma AssignWithin(fields: seq<(string, Value)>, steps: seq<Assignment>)
    ensures forall k :: k in Keys(Assign(fields, steps)) ==> k in Keys(fields) || k in StepKeys(steps)
  {
    forall k | k in Keys(Assign(fields, steps)) && k !in StepKeys(steps)
      ensures k in Keys(fields)
    {
      AssignOther(fields, steps, k);
    }
  }

  /** The statement at `j` decides its property: present exactly when the
      property was there before or the guard holds, and holding the assigned
      value when the guard holds. */
  lemma {:induction false} AssignAt(fields: seq<(string, Value)>, steps: seq<Assignment>, j: nat)
    requires DistinctSteps(steps) && j < |steps|
    ensures steps[j].key in Keys(Assign(fields, steps)) <==> steps[j].key in Keys(fields) || steps[j].cond
    ensures Lookup(Assign(fields, steps), steps[j].key)
         == if steps[j].cond then steps[j].value else Lookup(fields, steps[j].key)
    decreases |steps|
  {
    var s := steps[0];
    var next := Perform(fields, s);
    StepsTail(steps);
    if j == 0 {
      AssignOther(next, steps[1..], s.key);
      PutStep(fields, s, next);
    } else {
      assert steps[1..][j - 1] == steps[j];
      AssignAt(next, steps[1..], j - 1);
      PutStepOther(fields, s, next, steps[j].key);
    }
  }

  /** The statement at `j`, on a property not there before, alone decides it. */
  lemma AssignAtFresh(fields: seq<(string, Value)>, steps: seq<Assignment>, j: nat)
    requires DistinctSteps(steps) && j < |steps| && steps[j].key !in Keys(fields)
    ensures steps[j].key in Keys(Assign(fields, steps)) <==> steps[j].cond
    ensures steps[j].cond ==> Lookup(Assign(fields, steps), steps[j].key) == steps[j].value
  {
    AssignAt(fields, steps, j);
  }

  /** `AssignAt` for statements whose properties are listed in `ks`. */
  lemma AssignAtKey(fields: seq<(string, Value)>, steps: seq<Assignment>, ks: seq<string>, j: nat)
    requires StepKeys(steps) == ks && j < |ks|
    requires forall a, b :: 0 <= a < b < |ks| ==> ks[a] != ks[b]
    ensures ks[j] in Keys(Assign(fields, steps)) <==> ks[j] in Keys(fields) || steps[j].cond
    ensures Lookup(Assign(fields, steps), ks[j]) == if steps[j].cond then steps[j].value else Lookup(fields, ks[j])
  {
    assert steps[j].key == ks[j];
    AssignAt(fields, steps, j);
  }

  /** Statements and a start that keep to a list of properties end within it, each once. */
  lemma AssignShape(fields: seq<(string, Value)>, steps: seq<Assignment>, allowed: seq<string>)
    requires DistinctKeys(fields)
    requires forall k :: k in Keys(fields) ==> k in allowed
    requires forall k :: k in StepKeys(steps) ==> k in allowed
    ensures forall k :: k in Keys(Assign(fields, steps)) ==> k in allowed
    ensures DistinctKeys(Assign(fields, steps))
  {
    AssignWithin(fields, steps);
    AssignDistinct(fields, steps);
  }

  /** A guarded assignment decides its own property. */
  lemma PutStep(fields: seq<(string, Value)>, s: Assignment, next: seq<(string, Value)>)
    requires next == Perform(fields, s)
    ensures s.key in Keys(next) <==> s.key in Keys(fields) || s.cond
    ensures Lookup(next, s.key) == if s.cond then s.value else Lookup(fields, s.key)
  {
  }

  /** A guarded assignment leaves other properties alone. */
  lemma PutStepOther(fields: seq<(string, Value)>, s: Assignment, next: seq<(string, Value)>, k: string)
    requires next == Perform(fields, s)
    requires k != s.key
    ensures k in Keys(next) <==> k in Keys(fields)
    ensures Lookup(next, k) == Lookup(fields, k)
  {
  }

  /** The first statement's property is named by no later statement. */
  lemma StepsTail(steps: seq<Assignment>)
    requires DistinctSteps(steps) && |steps| > 0
    ensures DistinctSteps(steps[1..])
    ensures steps[0].key !in StepKeys(steps[1..])
    ensures forall j :: 1 <= j < |steps| ==> steps[j].key != steps[0].key
  {
    forall i | 0 <= i < |steps| - 1 ensures StepKeys(steps[1..])[i] != steps[0].key {
      assert steps[1..][i] == steps[i + 1];
    }
  }

  /** Guarded assignments never duplicate a property. */
  lemma {:induction false} AssignDistinct(fields: seq<(string, Value)>, steps: seq<Assignment>)
    requires DistinctKeys(fields)
    ensures DistinctKeys(Assign(fields, steps))
    decreases |steps|
  {
    if |steps| > 0 {
      var s := steps[0];
      if s.cond {
        PutDistinct(fields, s.key, s.value);
      }
      AssignDistinct(Perform(fields, s), steps[1..]);
    }
  }

  /** Assigning the same property twice keeps only the second value. */
  lemma {:induction false} PutTwice(fields: seq<(string, Value)>, k: string, x: Value, y: Value)
    ensures Put(Put(fields, k, x), k, y) == Put(fields, k, y)
    decreases |fields|
  {
    if |fields| > 0 && fields[0].0 != k {
      PutTwice(fields[1..], k, x, y);
      assert ([fields[0]] + Put(fields[1..], k, x))[1..] == Put(fields[1..], k, x);
    }
  }

  /** A key that is in neither part is not in the appended list. */
  lemma FreshAfterAppend(fields: seq<(string, Value)>, p: (string, Value), k: string)
    requires k !in Keys(fields) && k != p.0
    ensures k !in Keys(fields + [p])
  {
    assert Keys(fields + [p]) == Keys(fields) + [p.0];
  }

  /** Two new properties assigned in turn are appended in that order. */
  lemma PutTwoFresh(fields: seq<(string, Value)>, a: string, x: Value, b: string, y: Value)
    requires a !in Keys(fields) && b !in Keys(fields) && a != b
    ensures Put(Put(fields, a, x), b, y) == fields + [(a, x), (b, y)]
  {
    var once := fields + [(a, x)];
    PutFresh(fields, a, x);
    FreshAfterAppend(fields, (a, x), b);
    PutFresh(once, b, y);
    assert [(a, x)] + [(b, y)] == [(a, x), (b, y)];
    SeqAppendAssoc(fields, [(a, x)], [(b, y)]);
  }

  /** Spreading properties none of which is there yet appends them, each
      with its value. */
  lemma SpreadFresh(target: seq<(string, Value)>, src: seq<(string, Value)>)
    requires DistinctKeys(src)
    requires forall k :: k in Keys(src) ==> k !in Keys(target)
    ensures Keys(PutAll(target, src)) == Keys(target) + Keys(src)
    ensures forall k :: k in Keys(src) ==> Lookup(PutAll(target, src), k) == Lookup(src, k)
  {
    PutAllAppends(target, src);
    forall k | k in Keys(src) ensures Lookup(PutAll(target, src), k) == Lookup(src, k) {
      PutAllLookup(target, src, k);
    }
  }

  lemma Singleton<T>(s: seq<T>, x: T)
    requires |s| == 1 && s[0] == x
    ensures s == [x]
  {
  }
}
