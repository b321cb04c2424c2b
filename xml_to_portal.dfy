/** `src/lib/adapters/xml-to-portal.ts`: the portals of a `portal/read`
    answer, each entry's attributes copied as text with its two flags read
    as booleans. */
module PortalAdapter {
  import opened JsString
  import opened JsValue
  import opened Util

  /** `{...cloneXmlStrings(attrs), isActive: ..., isChildPortal: ...}`: the
      literal's own properties assigned after the spread. */
  function PortalFieldsOf(attrs: Value): seq<(string, Value)>
    requires Plain(attrs) && !attrs.Undef?
  {
    var active := Bool(GetXmlBoolean(Get(attrs, "isActive")));
    var child := Bool(GetXmlBoolean(Get(attrs, "isChildPortal")));
    Put(Put(PutAll([], AllStrings(attrs)), "isActive", active), "isChildPortal", child)
  }

  /** `parsePortal(portal)`: without `_attributes`, `Object.keys(undefined)`
      throws a TypeError. */
  function PortalOf(portal: Value): (r: Result<Value>)
    requires Parsed(portal)
    ensures r.Throw? <==> Get(portal, "_attributes").Undef?
    ensures r.Throw? ==> r.error == TypeError
    ensures r.Ok? ==> r.value.Obj?
  {
    var attrs := Get(portal, "_attributes");
    if attrs.Undef? then Throw(TypeError) else Ok(Obj(PortalFieldsOf(attrs)))
  }

  /** Every entry carries its attributes. */
  predicate Attributed(list: seq<Value>)
    requires forall i :: 0 <= i < |list| ==> Parsed(list[i])
  {
    forall i :: 0 <= i < |list| ==> !list[i].Undef? && !Get(list[i], "_attributes").Undef?
  }

  /** `portalXMLList.map(parsePortal)`: an entry without attributes ends the
      map with its TypeError; otherwise one portal per entry, in order. */
  function Portals(list: seq<Value>): Result<seq<Value>>
    requires forall i :: 0 <= i < |list| ==> Parsed(list[i])
  {
    if !Attributed(list) then Throw(TypeError)
    else Ok(seq(|list|, i requires 0 <= i < |list| && Attributed(list) => PortalOf(list[i]).value))
  }

  /** `xml.portalRS.portal`, read once `portalRS` is known to be there. */
  function PortalNode(xml: Value): Value
    requires Parsed(xml) && !Get(xml, "portalRS").Undef?
  {
    Get(Get(xml, "portalRS"), "portal")
  }

  /** `xmlToPortal(xml)`: reading `portal` off a missing `portalRS` throws a
      TypeError; no `portal` gives no portals; otherwise the entries, a single
      one counting as a list of one, each turned into a portal. */
  function XmlToPortal(xml: Value): (r: Result<seq<Value>>)
    requires Parsed(xml)
    ensures r.Throw? <==> Get(xml, "portalRS").Undef?
                          || (Truthy(PortalNode(xml)) && !Attributed(TransformToArray(PortalNode(xml))))
    ensures r.Throw? ==> r.error == TypeError
    ensures !Get(xml, "portalRS").Undef? && !Truthy(PortalNode(xml)) ==> r == Ok([])
  {
    var rs := Get(xml, "portalRS");
    if rs.Undef? then Throw(TypeError)
    else
      var node := Get(rs, "portal");
      if !Truthy(node) then Ok([]) else Portals(TransformToArray(node))
  }

  // ---------------------------------------------------------------------
  // What the answer holds

  /** A list of entries gives one portal per entry, in order. */
  lemma PortalList(xml: Value)
    requires Parsed(xml) && !Get(xml, "portalRS").Undef?
    requires PortalNode(xml).Arr? && Attributed(PortalNode(xml).items)
    ensures XmlToPortal(xml).Ok?
    ensures |XmlToPortal(xml).value| == |PortalNode(xml).items|
    ensures forall i :: 0 <= i < |PortalNode(xml).items| ==>
              XmlToPortal(xml).value[i] == PortalOf(PortalNode(xml).items[i]).value
  {
  }

  /** A single entry, not wrapped in a list, gives a list of one portal. */
  lemma PortalSingle(xml: Value)
    requires Parsed(xml) && !Get(xml, "portalRS").Undef?
    requires PortalNode(xml).Obj? && !Get(PortalNode(xml), "_attributes").Undef?
    ensures XmlToPortal(xml) == Ok([PortalOf(PortalNode(xml)).value])
  {
    var node := PortalNode(xml);
    assert TransformToArray(node) == [node];
    assert Attributed([node]);
    var portals := Portals([node]).value;
    assert |portals| == 1 && portals[0] == PortalOf(node).value;
    assert portals == [PortalOf(node).value];
  }

  /** Every attribute other than the two flags is copied as text. */
  lemma PortalAttribute(attrs: Value, k: string)
    requires Plain(attrs) && !attrs.Undef?
    requires k != "isActive" && k != "isChildPortal"
    ensures k in Keys(PortalFieldsOf(attrs)) <==> Has(attrs, k) && k in OwnKeys(attrs)
    ensures k in Keys(PortalFieldsOf(attrs)) ==> Lookup(PortalFieldsOf(attrs), k) == Str(GetXmlString(Get(attrs, k)))
  {
    SpreadThenTwo(AllStrings(attrs), k, "isActive", Bool(GetXmlBoolean(Get(attrs, "isActive"))),
                  "isChildPortal", Bool(GetXmlBoolean(Get(attrs, "isChildPortal"))));
  }

  /** A property spread into a fresh object and then left alone by two
      assignments keeps its value. */
  lemma SpreadThenTwo(copy: seq<(string, Value)>, k: string, a: string, x: Value, b: string, y: Value)
    requires DistinctKeys(copy) && k != a && k != b
    ensures k in Keys(Put(Put(PutAll([], copy), a, x), b, y)) <==> k in Keys(copy)
    ensures k in Keys(copy) ==> Lookup(Put(Put(PutAll([], copy), a, x), b, y), k) == Lookup(copy, k)
  {
    var spread := PutAll([], copy);
    var active := Put(spread, a, x);
    assert k in Keys(active) <==> k in Keys(spread);
    if k in Keys(copy) {
      PutAllLookup([], copy, k);
    }
  }

  /** Both flags are always there, as booleans that read `true` in any letter
      case and with any surrounding white space, overriding their text copies;
      a missing `isChildPortal` is false. */
  lemma PortalFlags(attrs: Value)
    requires Plain(attrs) && !attrs.Undef?
    ensures "isActive" in Keys(PortalFieldsOf(attrs)) && "isChildPortal" in Keys(PortalFieldsOf(attrs))
    ensures Lookup(PortalFieldsOf(attrs), "isActive") == Bool(TrueText(GetXmlString(Get(attrs, "isActive"))))
    ensures Lookup(PortalFieldsOf(attrs), "isChildPortal") == Bool(TrueText(GetXmlString(Get(attrs, "isChildPortal"))))
    ensures Get(attrs, "isChildPortal").Undef? ==> Lookup(PortalFieldsOf(attrs), "isChildPortal") == Bool(false)
  {
    GetXmlBooleanIff(Get(attrs, "isActive"));
    GetXmlBooleanIff(Get(attrs, "isChildPortal"));
    assert Trim("") == "";
  }

  /** The portal's properties are the element's attributes in document
      order, then whichever of the two flags the element lacks. */
  lemma PortalKeyOrder(fields: seq<(string, Value)>)
    requires Plain(Obj(fields)) && DistinctKeys(fields)
    ensures var ks := Keys(fields);
      var withActive := if "isActive" in ks then ks else ks + ["isActive"];
      Keys(PortalFieldsOf(Obj(fields))) == if "isChildPortal" in withActive then withActive else withActive + ["isChildPortal"]
  {
    var copy := AllStrings(Obj(fields));
    AllStringsFields(fields);
    assert forall k' :: k' in Keys(copy) ==> k' !in Keys([]);
    PutAllAppends([], copy);
    assert Keys(PutAll([], copy)) == Keys(fields);
  }
}
