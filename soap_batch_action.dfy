/**
 * The `soap_batch` action plugin: before the batch module runs, every request that carries a
 * `body_dict` has it rendered into an XML `body` with the plugin's own builder; the first request
 * that cannot be built or lacks `body`, `endpoint_url` or `soap_action` ends the action with a
 * failure naming it by its 1-based position.
 *
 * The plugin's builder differs from the one in the module utilities: `None` and every other
 * non-dict, non-list value become `str(value)` text (so `None` reads "None"), and without a root
 * tag only the first key of the dict is rendered.
 *
 * ElementTree's serialiser is the parameter `ser`; the batch module itself, which the plugin hands
 * its arguments to, is not part of this action.
 */
module SoapBatchAction {
  import opened Wrappers
  import opened Dicts
  import opened Values
  import opened Strings
  import opened XmlTree
  import opened PyDict
  import PlainXmlBody

  /** The tag of a key: `{ns}key` under a namespace that is set, the bare key otherwise. */
  function Tag(ns: Option<string>, key: string): string {
    PlainXmlBody.Tag(ns, key)
  }

  // ---------------------------------------------------------------------------
  // _dict_to_xml

  /** The elements `_dict_to_xml(data, parent)` appends to `parent`, in key order. */
  function Elements(ns: Option<string>, data: Dict<Value>): seq<Node>
    decreases data, 0
  {
    if |data| == 0 then []
    else
      var e := data[|data| - 1];
      assert e in data && e.1 < e;
      Elements(ns, data[..|data| - 1]) + EntryElements(ns, e.0, e.1)
  }

  /** One entry: a nested element for a dict, one sibling per item for a list, `str(value)` text for anything else. */
  function EntryElements(ns: Option<string>, key: string, v: Value): seq<Node>
    decreases v, 1
  {
    match v
    case VDict(entries) => [Node(Tag(ns, key), [], None, Elements(ns, entries))]
    case VList(items) => ItemElements(ns, key, items)
    case _ => [Node(Tag(ns, key), [], Some(PyStr(v)), [])]
  }

  /** One element per list item, all tagged like the key, with no wrapper. */
  function ItemElements(ns: Option<string>, key: string, items: seq<Value>): (r: seq<Node>)
    ensures |r| == |items|
    ensures forall i :: 0 <= i < |r| ==> r[i].tag == Tag(ns, key)
    decreases items, 1
  {
    if |items| == 0 then []
    else
      var item := items[|items| - 1];
      assert item in items;
      ItemElements(ns, key, items[..|items| - 1]) + [ItemElement(ns, key, item)]
  }

  /** A list item: a dict nests, anything else (a nested list and None included) becomes `str(item)`. */
  function ItemElement(ns: Option<string>, key: string, item: Value): (r: Node)
    ensures r.tag == Tag(ns, key)
    ensures !item.VDict? ==> r.text == Some(PyStr(item)) && r.children == []
    decreases item, 1
  {
    match item
    case VDict(entries) => Node(Tag(ns, key), [], None, Elements(ns, entries))
    case _ => Node(Tag(ns, key), [], Some(PyStr(item)), [])
  }

  /** `_dict_to_xml`: appends the elements for `data` to `parent`, entry by entry. */
  method DictToXml(ns: Option<string>, data: Dict<Value>, parent: Node) returns (r: Node)
    ensures r == parent.(children := parent.children + Elements(ns, data))
    decreases data, 1
  {
    r := parent;
    var i := 0;
    while i < |data|
      invariant 0 <= i <= |data|
      invariant r == parent.(children := parent.children + Elements(ns, data[..i]))
    {
      var key := data[i].0;
      var value := data[i].1;
      assert data[i] in data && value < data[i];
      assert data[..i + 1][..i] == data[..i];
      assert Elements(ns, data[..i + 1]) == Elements(ns, data[..i]) + EntryElements(ns, key, value);
      r := AddEntry(ns, key, value, r);
      i := i + 1;
    }
    assert data[..i] == data;
  }

  /**
   * One iteration of `_dict_to_xml`: the child is appended first; for a list it is removed again
   * and one sibling per item takes its place.
   */
  method AddEntry(ns: Option<string>, key: string, value: Value, parent: Node) returns (r: Node)
    ensures r == parent.(children := parent.children + EntryElements(ns, key, value))
    decreases value, 0
  {
    var child := Element(Tag(ns, key));
    match value {
      case VDict(entries) =>
        child := DictToXml(ns, entries, child);
        assert [] + Elements(ns, entries) == Elements(ns, entries);
        r := parent.(children := parent.children + [child]);
      case VList(items) =>
        r := parent.(children := parent.children + [child]);
        r := r.(children := r.children[..|r.children| - 1]);
        assert r.children == parent.children;
        r := AddItems(ns, key, items, r);
      case _ =>
        child := child.(text := Some(PyStr(value)));
        r := parent.(children := parent.children + [child]);
    }
  }

  /** The list branch of `_dict_to_xml`: one sibling per item, in order. */
  method AddItems(ns: Option<string>, key: string, items: seq<Value>, parent: Node) returns (r: Node)
    ensures r == parent.(children := parent.children + ItemElements(ns, key, items))
    decreases items, 0
  {
    r := parent;
    var j := 0;
    while j < |items|
      invariant 0 <= j <= |items|
      invariant r == parent.(children := parent.children + ItemElements(ns, key, items[..j]))
    {
      var item := items[j];
      assert item in items;
      assert items[..j + 1][..j] == items[..j];
      var listChild := Element(Tag(ns, key));
      match item {
        case VDict(entries) =>
          listChild := DictToXml(ns, entries, listChild);
          assert [] + Elements(ns, entries) == Elements(ns, entries);
        case _ =>
          listChild := listChild.(text := Some(PyStr(item)));
      }
      assert listChild == ItemElement(ns, key, item);
      r := r.(children := r.children + [listChild]);
      j := j + 1;
    }
    assert items[..j] == items;
  }

  // ---------------------------------------------------------------------------
  // _build_xml_body

  /** The XML text and the `ET.register_namespace(prefix, uri)` call made on the way, if any. */
  datatype Built = Built(xml: string, registered: Option<(string, Value)>)

  /** The `AttributeError` of calling a dict method on a value that is not a dict. */
  function NoAttribute(v: Value, attr: string): Exception {
    AttributeError("'" + TypeName(v) + "' object has no attribute '" + attr + "'")
  }

  const EmptyBodyDict := "body_dict ist leer"

  const BuildPrefix := "Fehler beim XML-Aufbau: "

  /** Every exception raised while building is re-raised as a `ValueError` with a fixed prefix. */
  function BuildFailed(e: Exception): Exception {
    ValueError(BuildPrefix + e.Message())
  }

  /** A true value formats to a non-empty text. */
  lemma TruthyText(v: Value)
    requires Truthy(v)
    ensures |PyStr(v)| > 0
  {
    match v
    case VInt(i) =>
      assert |IntToString(i)| > 0;
    case _ =>
  }

  /** The namespace as the f-strings format it: its `str` when it is true, no namespace otherwise. */
  function NsText(ns: Value): (r: Option<string>)
    ensures PlainXmlBody.NsOn(r) <==> Truthy(ns)
  {
    if Truthy(ns) then TruthyText(ns); Some(PyStr(ns)) else None
  }

  /** ElementTree's serialiser refuses a tag that is not a string. */
  function CannotSerialize(tag: Value): Exception {
    TypeError("cannot serialize " + PyRepr(tag) + " (type " + TypeName(tag) + ")")
  }

  predicate Digits(s: string) {
    |s| > 0 && forall i :: 0 <= i < |s| ==> '0' <= s[i] <= '9'
  }

  /** A prefix matching `ns\d+$`, which ElementTree keeps for the prefixes it makes up itself. */
  predicate ReservedPrefix(p: string) {
    && |p| >= 3 && p[..2] == "ns"
    && (Digits(p[2..]) || (p[|p| - 1] == '\n' && Digits(p[2..|p| - 1])))
  }

  /** `ET.register_namespace(prefix, uri)`: the registration, or what it raises. */
  function Register(prefix: Value, uri: Value): (r: Result<(string, Value)>)
    ensures r.Ok? <==> prefix.VStr? && !ReservedPrefix(prefix.s) && !uri.VList? && !uri.VDict?
    ensures r.Ok? ==> r.value == (prefix.s, uri)
    ensures prefix.VStr? && ReservedPrefix(prefix.s) ==> r == Fail(ValueError("Prefix format reserved for internal use"))
  {
    if !prefix.VStr? then Fail(TypeError("expected string or bytes-like object, got '" + TypeName(prefix) + "'"))
    else if ReservedPrefix(prefix.s) then Fail(ValueError("Prefix format reserved for internal use"))
    else if uri.VList? || uri.VDict? then Fail(Unhashable(uri))
    else Ok((prefix.s, uri))
  }

  /** Without a root tag, the first key becomes the root: a dict value nests, anything else is `str(value)` text. */
  function FirstKeyTree(ns: Option<string>, key: string, v: Value): Node {
    if v.VDict? then Node(Tag(ns, key), [], None, Elements(ns, v.entries))
    else Node(Tag(ns, key), [], Some(PyStr(v)), [])
  }

  /**
   * The tree `_build_xml_body` builds, or the exception it raises on the way before wrapping it.
   * The root's tag is the text of the root tag; the serialiser, not the tree, refuses a root tag
   * that is not a string.
   */
  function BodyTree(bodyDict: Value, rootTag: Value, ns: Value): Result<Node> {
    if Truthy(rootTag) then
      if !bodyDict.VDict? then Fail(NoAttribute(bodyDict, "items"))
      else Ok(Node(Tag(NsText(ns), PyStr(rootTag)), [], None, Elements(NsText(ns), bodyDict.entries)))
    else if !Truthy(bodyDict) then Fail(ValueError(EmptyBodyDict))
    else if !bodyDict.VDict? then Fail(NoAttribute(bodyDict, "keys"))
    else Ok(FirstKeyTree(NsText(ns), bodyDict.entries[0].0, bodyDict.entries[0].1))
  }

  /** The namespace registration `_build_xml_body` makes when `called`: none, the registration, or what it raised. */
  function Registration(called: bool, prefix: Value, ns: Value): Result<Option<(string, Value)>> {
    if called then
      match Register(prefix, ns)
      case Fail(e) => Fail(e)
      case Ok(reg) => Ok(Some(reg))
    else Ok(None)
  }

  /**
   * The end of `_build_xml_body` under a root tag: the namespace registration when both the
   * namespace and the prefix are set, then the serialiser, which refuses a root tag that stayed a
   * value other than a string (under a namespace it became the text `{ns}tag`).
   */
  function Finished(root: Node, rootTag: Value, ns: Value, prefix: Value, ser: Serializer): Result<Built> {
    match Registration(Truthy(ns) && Truthy(prefix), prefix, ns)
    case Fail(e) => Fail(BuildFailed(e))
    case Ok(reg) =>
      if !Truthy(ns) && !rootTag.VStr? then Fail(BuildFailed(CannotSerialize(rootTag)))
      else Ok(Built(ser(root), reg))
  }

  /** What `_build_xml_body` returns or raises; without a root tag the tree is serialised at once. */
  function Rendered(bodyDict: Value, rootTag: Value, ns: Value, prefix: Value, ser: Serializer): Result<Built> {
    match BodyTree(bodyDict, rootTag, ns)
    case Fail(e) => Fail(BuildFailed(e))
    case Ok(root) => if Truthy(rootTag) then Finished(root, rootTag, ns, prefix, ser) else Ok(Built(ser(root), None))
  }

  /** `_build_xml_body(body_dict, root_tag, namespace, namespace_prefix)` */
  method BuildXmlBody(bodyDict: Value, rootTag: Value, ns: Value, prefix: Value, ser: Serializer)
    returns (r: Result<Built>)
    ensures r == Rendered(bodyDict, rootTag, ns, prefix, ser)
  {
    var nsText := NsText(ns);
    var root: Node;
    if Truthy(rootTag) {
      root := Element(Tag(nsText, PyStr(rootTag)));
    } else {
      if !Truthy(bodyDict) {
        r := Fail(BuildFailed(ValueError(EmptyBodyDict)));
        assert r == Rendered(bodyDict, rootTag, ns, prefix, ser);
        return;
      }
      if !bodyDict.VDict? {
        r := Fail(BuildFailed(NoAttribute(bodyDict, "keys")));
        assert r == Rendered(bodyDict, rootTag, ns, prefix, ser);
        return;
      }
      var rootKey := bodyDict.entries[0].0;
      var rootValue := bodyDict.entries[0].1;
      root := Element(Tag(nsText, rootKey));
      if rootValue.VDict? {
        root := DictToXml(nsText, rootValue.entries, root);
        assert [] + Elements(nsText, rootValue.entries) == Elements(nsText, rootValue.entries);
      } else {
        root := root.(text := Some(PyStr(rootValue)));
      }
      assert root == FirstKeyTree(nsText, rootKey, rootValue);
      r := Ok(Built(ser(root), None));
      assert r == Rendered(bodyDict, rootTag, ns, prefix, ser);
      return;
    }
    if !bodyDict.VDict? {
      r := Fail(BuildFailed(NoAttribute(bodyDict, "items")));
      assert r == Rendered(bodyDict, rootTag, ns, prefix, ser);
      return;
    }
    root := DictToXml(nsText, bodyDict.entries, root);
    assert [] + Elements(nsText, bodyDict.entries) == Elements(nsText, bodyDict.entries);
    assert BodyTree(bodyDict, rootTag, ns) == Ok(root);
    r := RegisterAndSerialize(root, rootTag, ns, prefix, ser);
  }

  /** The last steps of `_build_xml_body` under a root tag: `ET.register_namespace` if called for, then `ET.tostring`. */
  method RegisterAndSerialize(root: Node, rootTag: Value, ns: Value, prefix: Value, ser: Serializer)
    returns (r: Result<Built>)
    ensures r == Finished(root, rootTag, ns, prefix, ser)
  {
    var registered := RegisterNamespace(Truthy(ns) && Truthy(prefix), prefix, ns);
    if registered.Fail? {
      return Fail(BuildFailed(registered.error));
    }
    if !Truthy(ns) && !rootTag.VStr? {
      return Fail(BuildFailed(CannotSerialize(rootTag)));
    }
    r := Ok(Built(ser(root), registered.value));
  }

  /** `if namespace and namespace_prefix: ET.register_namespace(namespace_prefix, namespace)`, the condition given as `called`. */
  method RegisterNamespace(called: bool, prefix: Value, ns: Value) returns (r: Result<Option<(string, Value)>>)
    ensures r == Registration(called, prefix, ns)
  {
    r := Ok(None);
    if called {
      var reg := Register(prefix, ns);
      if reg.Fail? {
        return Fail(reg.error);
      }
      r := Ok(Some(reg.value));
    }
  }

  // ---------------------------------------------------------------------------
  // Properties of the builder

  /**
   * Building fails exactly when the body dict is not a dict, when there is no root tag and the dict
   * is empty, when a root tag that is not a string is left without a namespace, or when the
   * namespace registration is refused.
   */
  lemma RenderFailsIff(bodyDict: Value, rootTag: Value, ns: Value, prefix: Value, ser: Serializer)
    ensures Rendered(bodyDict, rootTag, ns, prefix, ser).Fail? <==>
              || !bodyDict.VDict?
              || (!Truthy(rootTag) && |bodyDict.entries| == 0)
              || (Truthy(rootTag) && !Truthy(ns) && !rootTag.VStr?)
              || (Truthy(rootTag) && Truthy(ns) && Truthy(prefix) && Register(prefix, ns).Fail?)
  {
    var tree := BodyTree(bodyDict, rootTag, ns);
    if Truthy(rootTag) && bodyDict.VDict? {
      assert tree.Ok?;
      var reg := Registration(Truthy(ns) && Truthy(prefix), prefix, ns);
      assert Truthy(ns) && Truthy(prefix) ==> (reg.Fail? <==> Register(prefix, ns).Fail?);
      assert Rendered(bodyDict, rootTag, ns, prefix, ser) == Finished(tree.value, rootTag, ns, prefix, ser);
    }
  }

  /** Each build failure is the `ValueError` that carries its cause's message behind the fixed prefix. */
  lemma BuildFailureMessages(bodyDict: Value, rootTag: Value, ns: Value, prefix: Value, ser: Serializer)
    ensures !Truthy(rootTag) && !Truthy(bodyDict) ==>
              Rendered(bodyDict, rootTag, ns, prefix, ser) == Fail(BuildFailed(ValueError(EmptyBodyDict)))
    ensures Truthy(rootTag) && !bodyDict.VDict? ==>
              Rendered(bodyDict, rootTag, ns, prefix, ser) == Fail(BuildFailed(NoAttribute(bodyDict, "items")))
    ensures !Truthy(rootTag) && Truthy(bodyDict) && !bodyDict.VDict? ==>
              Rendered(bodyDict, rootTag, ns, prefix, ser) == Fail(BuildFailed(NoAttribute(bodyDict, "keys")))
    ensures Truthy(rootTag) && bodyDict.VDict? && !Truthy(ns) && !rootTag.VStr? ==>
              Rendered(bodyDict, rootTag, ns, prefix, ser) == Fail(BuildFailed(CannotSerialize(rootTag)))
    ensures Truthy(rootTag) && bodyDict.VDict? && Truthy(ns) && Truthy(prefix) && Register(prefix, ns).Fail? ==>
              Rendered(bodyDict, rootTag, ns, prefix, ser) == Fail(BuildFailed(Register(prefix, ns).error))
  {
    EmptyBodyFails(bodyDict, rootTag, ns, prefix, ser);
    NotADictFails(bodyDict, rootTag, ns, prefix, ser);
    RootTagNotSerialized(bodyDict, rootTag, ns, prefix, ser);
    RegistrationRefused(bodyDict, rootTag, ns, prefix, ser);
  }

  lemma EmptyBodyFails(bodyDict: Value, rootTag: Value, ns: Value, prefix: Value, ser: Serializer)
    ensures !Truthy(rootTag) && !Truthy(bodyDict) ==>
              Rendered(bodyDict, rootTag, ns, prefix, ser) == Fail(BuildFailed(ValueError(EmptyBodyDict)))
  {
  }

  lemma NotADictFails(bodyDict: Value, rootTag: Value, ns: Value, prefix: Value, ser: Serializer)
    ensures !bodyDict.VDict? && Truthy(rootTag) ==>
              Rendered(bodyDict, rootTag, ns, prefix, ser) == Fail(BuildFailed(NoAttribute(bodyDict, "items")))
    ensures !bodyDict.VDict? && !Truthy(rootTag) && Truthy(bodyDict) ==>
              Rendered(bodyDict, rootTag, ns, prefix, ser) == Fail(BuildFailed(NoAttribute(bodyDict, "keys")))
  {
  }

  lemma RootTagNotSerialized(bodyDict: Value, rootTag: Value, ns: Value, prefix: Value, ser: Serializer)
    ensures Truthy(rootTag) && bodyDict.VDict? && !Truthy(ns) && !rootTag.VStr? ==>
              Rendered(bodyDict, rootTag, ns, prefix, ser) == Fail(BuildFailed(CannotSerialize(rootTag)))
  {
  }

  lemma RegistrationRefused(bodyDict: Value, rootTag: Value, ns: Value, prefix: Value, ser: Serializer)
    ensures Truthy(rootTag) && bodyDict.VDict? && Truthy(ns) && Truthy(prefix) && Register(prefix, ns).Fail? ==>
              Rendered(bodyDict, rootTag, ns, prefix, ser) == Fail(BuildFailed(Register(prefix, ns).error))
  {
  }

  /**
   * Without a root tag only the first key is rendered, the others are dropped silently, and no
   * namespace is registered.
   */
  lemma FirstKeyOnly(entries: Dict<Value>, others: Dict<Value>, rootTag: Value, ns: Value, prefix: Value,
                     ser: Serializer)
    requires !Truthy(rootTag) && |entries| > 0
    ensures Rendered(VDict(entries), rootTag, ns, prefix, ser) == Rendered(VDict([entries[0]] + others), rootTag, ns, prefix, ser)
    ensures Rendered(VDict(entries), rootTag, ns, prefix, ser) ==
            Ok(Built(ser(FirstKeyTree(NsText(ns), entries[0].0, entries[0].1)), None))
  {
  }

  /**
   * With a root tag, the root carries its text (qualified under a namespace that is set) and holds
   * the elements of the whole dict; the namespace is registered exactly when it and the prefix are
   * set, and a string prefix that ElementTree does not reserve is registered as given.
   */
  lemma RootTagTree(entries: Dict<Value>, rootTag: Value, ns: Value, prefix: Value, ser: Serializer)
    requires Truthy(rootTag) && (rootTag.VStr? || Truthy(ns))
    ensures BodyTree(VDict(entries), rootTag, ns) ==
            Ok(Node(Tag(NsText(ns), PyStr(rootTag)), [], None, Elements(NsText(ns), entries)))
    ensures var r := Rendered(VDict(entries), rootTag, ns, prefix, ser);
            && (r.Ok? ==> (r.value.registered.Some? <==> Truthy(ns) && Truthy(prefix)))
            && (Truthy(ns) && Truthy(prefix) ==> (r.Ok? <==> Register(prefix, ns).Ok?))
            && (Truthy(ns) && prefix.VStr? && |prefix.s| > 0 && !ReservedPrefix(prefix.s) && !ns.VList? && !ns.VDict? ==>
                  r.Ok? && r.value.registered == Some((prefix.s, ns)))
  {
    var root := Node(Tag(NsText(ns), PyStr(rootTag)), [], None, Elements(NsText(ns), entries));
    assert BodyTree(VDict(entries), rootTag, ns) == Ok(root);
    var reg := Registration(Truthy(ns) && Truthy(prefix), prefix, ns);
    assert Rendered(VDict(entries), rootTag, ns, prefix, ser) ==
           if reg.Ok? then Ok(Built(ser(root), reg.value)) else Fail(BuildFailed(reg.error));
  }

  /** A value with no None anywhere inside it. */
  predicate NoNone(v: Value)
    decreases v, 1
  {
    match v
    case VNone => false
    case VList(items) => NoNoneItems(items)
    case VDict(entries) => NoNoneEntries(entries)
    case _ => true
  }

  predicate NoNoneItems(items: seq<Value>)
    decreases items, 0
  {
    if |items| == 0 then true
    else
      var item := items[|items| - 1];
      assert item in items;
      NoNoneItems(items[..|items| - 1]) && NoNone(item)
  }

  predicate NoNoneEntries(entries: Dict<Value>)
    decreases entries, 0
  {
    if |entries| == 0 then true
    else
      var e := entries[|entries| - 1];
      assert e in entries && e.1 < e;
      NoNoneEntries(entries[..|entries| - 1]) && NoNone(e.1)
  }

  /** On data with no None in it, the plugin's builder makes the same elements as the module utilities' `add_elements`. */
  lemma {:induction false} ElementsAgree(ns: Option<string>, data: Dict<Value>)
    requires NoNoneEntries(data)
    ensures Elements(ns, data) == PlainXmlBody.Children(ns, data)
    decreases data, 0
  {
    if |data| > 0 {
      var e := data[|data| - 1];
      assert e in data && e.1 < e;
      ElementsAgree(ns, data[..|data| - 1]);
      EntryAgrees(ns, e.0, e.1);
    }
  }

  lemma {:induction false} EntryAgrees(ns: Option<string>, key: string, v: Value)
    requires NoNone(v)
    ensures EntryElements(ns, key, v) == PlainXmlBody.EntryNodes(ns, key, v)
    decreases v, 1
  {
    match v
    case VDict(entries) => ElementsAgree(ns, entries);
    case VList(items) => ItemsAgree(ns, key, items);
    case _ =>
  }

  lemma {:induction false} ItemsAgree(ns: Option<string>, key: string, items: seq<Value>)
    requires NoNoneItems(items)
    ensures ItemElements(ns, key, items) == PlainXmlBody.ListNodes(ns, key, items)
    decreases items, 1
  {
    if |items| > 0 {
      var item := items[|items| - 1];
      assert item in items;
      ItemsAgree(ns, key, items[..|items| - 1]);
      if item.VDict? {
        ElementsAgree(ns, item.entries);
      }
    }
  }

  /**
   * With a string root tag and a string namespace or none at all, a body dict with no None in it
   * renders to the same text as `XmlBody.from_dict` of the module utilities.
   */
  lemma RootTagAgreesWithFromDict(entries: Dict<Value>, rootTag: string, ns: Option<string>, prefix: Value,
                                  ser: Serializer)
    requires |rootTag| > 0 && NoNoneEntries(entries)
    requires PlainXmlBody.NsOn(ns) || ns.None?
    ensures var nsValue := if ns.Some? then VStr(ns.value) else VNone;
            var r := Rendered(VDict(entries), VStr(rootTag), nsValue, prefix, ser);
            r.Ok? ==> r.value.xml == ser(PlainXmlBody.RootTree(rootTag, ns, entries))
    ensures ns.None? ==> Rendered(VDict(entries), VStr(rootTag), VNone, prefix, ser).Ok?
  {
    ElementsAgree(ns, entries);
  }

  /** Where the two builders part: the plugin writes None as the text "None", the module utilities leave it empty. */
  lemma NoneRendersAsText(ns: Option<string>, key: string)
    ensures EntryElements(ns, key, VNone) == [Node(Tag(ns, key), [], Some("None"), [])]
    ensures PlainXmlBody.EntryNodes(ns, key, VNone) == [Node(Tag(ns, key), [], None, [])]
    ensures ItemElement(ns, key, VNone).text == Some("None") && PlainXmlBody.ItemNode(ns, key, VNone).text == Some("")
  {
  }

  // ---------------------------------------------------------------------------
  // run: one request

  /** The outcome of preparing one request: the failure message, the request to hand on, or what `dict(req)` raised. */
  datatype Prepared = Rejected(msg: string) | Accepted(req: Dict<Value>) | Unreadable(error: Exception)

  function Numbered(n: nat): string {
    "Request #" + IntToString(n)
  }

  function BodyFailed(n: nat, e: Exception): string {
    "Fehler beim Erstellen von Request #" + IntToString(n) + " XML Body: " + e.Message()
  }

  function NoBody(n: nat): string {
    Numbered(n) + ": Weder \"body\" noch \"body_dict\" angegeben"
  }

  function NoEndpoint(n: nat): string {
    Numbered(n) + ": Parameter \"endpoint_url\" fehlt"
  }

  function NoAction(n: nat): string {
    Numbered(n) + ": Parameter \"soap_action\" fehlt"
  }

  /** The request with the four builder arguments popped. */
  function Popped(req: Dict<Value>): Dict<Value> {
    Remove(Remove(Remove(Remove(req, "body_dict"), "body_root_tag"), "namespace"), "namespace_prefix")
  }

  /** The three checks, in order, on a request whose body is settled. */
  function Checked(p: Dict<Value>, n: nat): (r: Prepared)
    ensures r.Accepted? <==> HasKey(p, "body") && HasKey(p, "endpoint_url") && HasKey(p, "soap_action")
    ensures r.Accepted? ==> r.req == p
    ensures !r.Unreadable?
  {
    if !HasKey(p, "body") then Rejected(NoBody(n))
    else if !HasKey(p, "endpoint_url") then Rejected(NoEndpoint(n))
    else if !HasKey(p, "soap_action") then Rejected(NoAction(n))
    else Accepted(p)
  }

  /** `_build_xml_body` applied to the request's `body_dict` and builder arguments, with their defaults. */
  function BodyOf(req: Dict<Value>, ser: Serializer): Result<Built>
    requires HasKey(req, "body_dict")
  {
    Rendered(Get(req, "body_dict").value, GetOr(req, "body_root_tag", VNone), GetOr(req, "namespace", VNone),
             GetOr(req, "namespace_prefix", VStr("ns")), ser)
  }

  /** What one iteration of the loop in `run` makes of the copy `req` of request number `n` (counting from 1). */
  function Prepare(req: Dict<Value>, n: nat, ser: Serializer): (r: Prepared)
    ensures r.Accepted? ==> HasKey(r.req, "body") && HasKey(r.req, "endpoint_url") && HasKey(r.req, "soap_action")
    ensures !r.Unreadable?
  {
    if HasKey(req, "body_dict") then
      match BodyOf(req, ser)
      case Fail(e) => Rejected(BodyFailed(n, e))
      case Ok(b) => Checked(Set(Popped(req), "body", VStr(b.xml)), n)
    else Checked(req, n)
  }

  /** One iteration of the loop in `run` on item `item` of `requests`, numbered `n`. */
  function Step(item: Value, n: nat, ser: Serializer): (r: Prepared)
    ensures r.Unreadable? <==> DictOf(item).Fail?
    ensures r.Unreadable? ==> r.error == DictOf(item).error
  {
    match DictOf(item)
    case Fail(e) => Unreadable(e)
    case Ok(req) => Prepare(req, n, ser)
  }

  /** The body of the loop in `run` for item `item`, numbered `n`. */
  method PrepareRequest(item: Value, n: nat, ser: Serializer) returns (r: Prepared)
    ensures r == Step(item, n, ser)
  {
    var copied := DictOf(item);
    if copied.Fail? {
      return Unreadable(copied.error);
    }
    var req := copied.value;
    var p := req;
    if HasKey(p, "body_dict") {
      var bodyDict := Get(p, "body_dict").value;
      var rootTag := GetOr(req, "body_root_tag", VNone);
      var ns := GetOr(req, "namespace", VNone);
      var prefix := GetOr(req, "namespace_prefix", VStr("ns"));
      p := Remove(p, "body_dict");
      p := Remove(p, "body_root_tag");
      p := Remove(p, "namespace");
      p := Remove(p, "namespace_prefix");
      var built := BuildXmlBody(bodyDict, rootTag, ns, prefix, ser);
      assert built == BodyOf(req, ser);
      if built.Fail? {
        return Rejected(BodyFailed(n, built.error));
      }
      p := Set(p, "body", VStr(built.value.xml));
    }
    if !HasKey(p, "body") {
      return Rejected(NoBody(n));
    }
    if !HasKey(p, "endpoint_url") {
      return Rejected(NoEndpoint(n));
    }
    if !HasKey(p, "soap_action") {
      return Rejected(NoAction(n));
    }
    r := Accepted(p);
  }

  /**
   * A request without `body_dict` is handed on unchanged when it has the three keys. One with a
   * `body_dict` loses it and the three builder arguments, gains the rendered `body` (replacing any
   * given one) and keeps every other entry; a build failure is reported under the request's number.
   */
  lemma PreparedRequest(req: Dict<Value>, n: nat, ser: Serializer)
    requires UniqueKeys(req)
    ensures !HasKey(req, "body_dict") ==> Prepare(req, n, ser) == Checked(req, n)
    ensures HasKey(req, "body_dict") ==>
              var b := BodyOf(req, ser);
              && (b.Fail? ==> Prepare(req, n, ser) == Rejected(BodyFailed(n, b.error)))
              && (b.Ok? ==> (Prepare(req, n, ser).Accepted? <==> HasKey(req, "endpoint_url") && HasKey(req, "soap_action")))
              && (Prepare(req, n, ser).Accepted? ==>
                    var p := Prepare(req, n, ser).req;
                    && Get(p, "body") == Some(VStr(b.value.xml))
                    && (forall k :: k in PoppedKeys ==> !HasKey(p, k))
                    && forall k :: k !in PoppedKeys && k != "body" ==> Get(p, k) == Get(req, k))
  {
    if HasKey(req, "body_dict") && BodyOf(req, ser).Ok? {
      var xml := BodyOf(req, ser).value.xml;
      var p := Set(Popped(req), "body", VStr(xml));
      assert Prepare(req, n, ser) == Checked(p, n);
      WithBody(req, xml);
    }
  }

  /**
   * A builder argument that is not a string is no precondition of the plugin: a true root tag such
   * as `5` with no namespace reaches the serialiser, whose `TypeError` is reported as the request's
   * build failure.
   */
  lemma NonStringRootTagReported(req: Dict<Value>, n: nat, ser: Serializer)
    requires HasKey(req, "body_dict") && Get(req, "body_dict").value.VDict?
    requires var rootTag := GetOr(req, "body_root_tag", VNone);
             Truthy(rootTag) && !rootTag.VStr? && !Truthy(GetOr(req, "namespace", VNone))
    ensures Prepare(req, n, ser) == Rejected(BodyFailed(n, BuildFailed(CannotSerialize(GetOr(req, "body_root_tag", VNone)))))
  {
    var rootTag := GetOr(req, "body_root_tag", VNone);
    var ns := GetOr(req, "namespace", VNone);
    var prefix := GetOr(req, "namespace_prefix", VStr("ns"));
    var tree := BodyTree(Get(req, "body_dict").value, rootTag, ns);
    assert tree.Ok?;
    assert Registration(Truthy(ns) && Truthy(prefix), prefix, ns) == Ok(None);
    assert Finished(tree.value, rootTag, ns, prefix, ser) == Fail(BuildFailed(CannotSerialize(rootTag)));
    assert BodyOf(req, ser) == Fail(BuildFailed(CannotSerialize(rootTag)));
  }

  /** The request after the pops and the assignment of the rendered body. */
  lemma WithBody(req: Dict<Value>, xml: string)
    requires UniqueKeys(req)
    ensures var p := Set(Popped(req), "body", VStr(xml));
            && Get(p, "body") == Some(VStr(xml))
            && (forall k :: k in PoppedKeys ==> !HasKey(p, k))
            && (forall k :: k !in PoppedKeys && k != "body" ==> Get(p, k) == Get(req, k))
            && (HasKey(p, "endpoint_url") <==> HasKey(req, "endpoint_url"))
            && (HasKey(p, "soap_action") <==> HasKey(req, "soap_action"))
  {
    var p4 := Popped(req);
    PoppedEntries(req);
    var p := Set(p4, "body", VStr(xml));
    GetSetSame(p4, "body", VStr(xml));
    forall k | k != "body" ensures Get(p, k) == Get(p4, k) && (HasKey(p, k) <==> HasKey(p4, k)) {
      GetSetOther(p4, "body", VStr(xml), k);
      HasKeySet(p4, "body", VStr(xml), k);
    }
    assert Get(p4, "endpoint_url") == Get(req, "endpoint_url");
    assert Get(p4, "soap_action") == Get(req, "soap_action");
  }

  /** Popping the builder arguments removes them and leaves every other entry as it was. */
  lemma PoppedEntries(req: Dict<Value>)
    requires UniqueKeys(req)
    ensures forall k :: k in PoppedKeys ==> !HasKey(Popped(req), k)
    ensures forall k :: k !in PoppedKeys ==> Get(Popped(req), k) == Get(req, k)
  {
    var p1 := Remove(req, "body_dict");
    var p2 := Remove(p1, "body_root_tag");
    var p3 := Remove(p2, "namespace");
    var p4 := Remove(p3, "namespace_prefix");
    RemoveEntries(req, "body_dict");
    RemoveEntries(p1, "body_root_tag");
    RemoveEntries(p2, "namespace");
    RemoveEntries(p3, "namespace_prefix");
    forall k | k in PoppedKeys ensures !HasKey(p4, k) {
      HasKeyAt(p4, k);
    }
    forall k | k !in PoppedKeys ensures Get(p4, k) == Get(req, k) {
      GetRemoveOther(req, "body_dict", k);
      GetRemoveOther(p1, "body_root_tag", k);
      GetRemoveOther(p2, "namespace", k);
      GetRemoveOther(p3, "namespace_prefix", k);
    }
  }

  /** The keys `run` pops from a request that carries a `body_dict`. */
  const PoppedKeys: set<string> := {"body_dict", "body_root_tag", "namespace", "namespace_prefix"}

  // ---------------------------------------------------------------------------
  // run: the loop

  /** The requests prepared, the message of the first one rejected, or the exception the first unreadable one raised. */
  datatype Batch = Stopped(msg: string) | Ready(requests: seq<Dict<Value>>) | Aborted(error: Exception)

  /** `enumerate(requests)`: the items a true `requests` iterates over, or the `TypeError` of one that cannot be iterated. */
  function Items(requests: Value): (r: Result<seq<Value>>)
    ensures requests.VList? ==> r == Ok(requests.items)
    ensures r.Fail? <==> !requests.VList? && !requests.VStr? && !requests.VDict?
  {
    match requests
    case VList(items) => Ok(items)
    case VStr(s) => Ok(seq(|s|, i requires 0 <= i < |s| => VStr([s[i]])))
    case VDict(es) => Ok(seq(|es|, i requires 0 <= i < |es| => VStr(es[i].0)))
    case _ => Fail(NotIterable(requests))
  }

  /** What the loop makes of each item on its own, item `i` (counting from 0) numbered `i + 1`. */
  function Steps(items: seq<Value>, ser: Serializer): (r: seq<Prepared>)
    ensures |r| == |items| && forall i :: 0 <= i < |items| ==> r[i] == Step(items[i], i + 1, ser)
  {
    seq(|items|, i requires 0 <= i < |items| => Step(items[i], i + 1, ser))
  }

  /** The loop from step `i` on: each request taken in turn until the first rejection or exception. */
  function Collected(steps: seq<Prepared>, i: nat): Batch
    requires i <= |steps|
    decreases |steps| - i
  {
    if i == |steps| then Ready([])
    else match steps[i]
      case Rejected(m) => Stopped(m)
      case Unreadable(e) => Aborted(e)
      case Accepted(p) =>
        match Collected(steps, i + 1)
        case Stopped(m) => Stopped(m)
        case Aborted(e) => Aborted(e)
        case Ready(ps) => Ready([p] + ps)
  }

  /** `ps` prepared already, followed by the rest of the loop. */
  function Then(ps: seq<Dict<Value>>, b: Batch): Batch {
    match b
    case Stopped(m) => Stopped(m)
    case Aborted(e) => Aborted(e)
    case Ready(qs) => Ready(ps + qs)
  }

  /** One accepted step moves its request from the rest of the loop to the requests prepared already. */
  lemma CollectedStep(steps: seq<Prepared>, i: nat, ps: seq<Dict<Value>>)
    requires i < |steps| && steps[i].Accepted?
    ensures Then(ps, Collected(steps, i)) == Then(ps + [steps[i].req], Collected(steps, i + 1))
  {
    var rest := Collected(steps, i + 1);
    if rest.Ready? {
      assert ps + ([steps[i].req] + rest.requests) == (ps + [steps[i].req]) + rest.requests;
    }
  }

  /**
   * The loop succeeds exactly when every step from `k` on accepts its request, and then hands on
   * each prepared request in order; otherwise it reports the message of the first rejection, or
   * lets the exception of the first unreadable item through.
   */
  lemma {:induction false} CollectedAll(steps: seq<Prepared>, k: nat)
    requires k <= |steps|
    ensures Collected(steps, k).Ready? <==> forall i :: k <= i < |steps| ==> steps[i].Accepted?
    ensures Collected(steps, k).Ready? ==>
              var ps := Collected(steps, k).requests;
              |ps| == |steps| - k && forall j :: 0 <= j < |ps| ==> ps[j] == steps[k + j].req
    ensures Collected(steps, k).Stopped? ==>
              exists i :: k <= i < |steps| && steps[i] == Rejected(Collected(steps, k).msg)
                          && forall j :: k <= j < i ==> steps[j].Accepted?
    ensures Collected(steps, k).Aborted? ==>
              exists i :: k <= i < |steps| && steps[i] == Unreadable(Collected(steps, k).error)
                          && forall j :: k <= j < i ==> steps[j].Accepted?
    decreases |steps| - k
  {
    if k < |steps| {
      CollectedAll(steps, k + 1);
      var b := Collected(steps, k);
      if steps[k].Rejected? {
        assert b == Stopped(steps[k].msg);
      } else if steps[k].Unreadable? {
        assert b == Aborted(steps[k].error);
      } else if b.Ready? {
        var ps := b.requests;
        var rest := Collected(steps, k + 1).requests;
        assert ps == [steps[k].req] + rest;
        forall j | 0 <= j < |ps| ensures ps[j] == steps[k + j].req {
          if j > 0 {
            assert ps[j] == rest[j - 1];
          }
        }
      } else if b.Stopped? {
        var i :| k + 1 <= i < |steps| && steps[i] == Rejected(Collected(steps, k + 1).msg)
                 && forall j :: k + 1 <= j < i ==> steps[j].Accepted?;
        assert steps[i] == Rejected(b.msg);
      } else {
        var i :| k + 1 <= i < |steps| && steps[i] == Unreadable(Collected(steps, k + 1).error)
                 && forall j :: k + 1 <= j < i ==> steps[j].Accepted?;
        assert steps[i] == Unreadable(b.error);
      }
    }
  }

  // ---------------------------------------------------------------------------
  // run

  /**
   * What `run` ends with: the failure dict's message, the arguments the batch module is run with,
   * or an exception that escapes `run`.
   */
  datatype ActionResult = Failed(msg: string) | Delegated(moduleArgs: Dict<Value>) | Escaped(error: Exception)

  const RequestsRequired := "Parameter \"requests\" ist erforderlich"

  function AsValues(ps: seq<Dict<Value>>): (r: seq<Value>)
    ensures |r| == |ps| && forall i :: 0 <= i < |ps| ==> r[i] == VDict(ps[i])
  {
    seq(|ps|, i requires 0 <= i < |ps| => VDict(ps[i]))
  }

  /** `module_args`: the prepared requests and the action's settings with their defaults. */
  function ModuleArgs(ps: seq<Dict<Value>>, args: Dict<Value>): Dict<Value> {
    [("requests", VList(AsValues(ps))),
     ("parallel", GetOr(args, "parallel", VBool(false))),
     ("max_workers", GetOr(args, "max_workers", VInt(5))),
     ("stop_on_error", GetOr(args, "stop_on_error", VBool(false))),
     ("validate_certs", GetOr(args, "validate_certs", VBool(true)))]
  }

  /** What `run` does with the action's arguments. */
  function Action(args: Dict<Value>, ser: Serializer): ActionResult {
    var requests := GetOr(args, "requests", VList([]));
    if !Truthy(requests) then Failed(RequestsRequired)
    else match Items(requests)
      case Fail(e) => Escaped(e)
      case Ok(items) =>
        match Collected(Steps(items, ser), 0)
        case Stopped(m) => Failed(m)
        case Aborted(e) => Escaped(e)
        case Ready(ps) => Delegated(ModuleArgs(ps, args))
  }

  /** `run`, up to the call of the batch module. */
  method Run(args: Dict<Value>, ser: Serializer) returns (r: ActionResult)
    ensures r == Action(args, ser)
  {
    var requests := GetOr(args, "requests", VList([]));
    var parallel := GetOr(args, "parallel", VBool(false));
    var maxWorkers := GetOr(args, "max_workers", VInt(5));
    var stopOnError := GetOr(args, "stop_on_error", VBool(false));
    var validateCerts := GetOr(args, "validate_certs", VBool(true));
    if !Truthy(requests) {
      return Failed(RequestsRequired);
    }
    var items := Items(requests);
    if items.Fail? {
      return Escaped(items.error);
    }
    var prepared := PrepareAll(items.value, ser);
    if prepared.Stopped? {
      return Failed(prepared.msg);
    }
    if prepared.Aborted? {
      return Escaped(prepared.error);
    }
    var moduleArgs := [("requests", VList(AsValues(prepared.requests))), ("parallel", parallel), ("max_workers", maxWorkers),
                       ("stop_on_error", stopOnError), ("validate_certs", validateCerts)];
    r := Delegated(moduleArgs);
  }

  /** The loop of `run`: each item prepared in turn, returning at the first rejection or exception. */
  method PrepareAll(items: seq<Value>, ser: Serializer) returns (b: Batch)
    ensures b == Collected(Steps(items, ser), 0)
  {
    ghost var steps := Steps(items, ser);
    var processed: seq<Dict<Value>> := [];
    var i := 0;
    while i < |items|
      invariant 0 <= i <= |items|
      invariant Collected(steps, 0) == Then(processed, Collected(steps, i))
    {
      var step := PrepareNth(items, i, ser);
      if step.Rejected? {
        return Stopped(step.msg);
      }
      if step.Unreadable? {
        return Aborted(step.error);
      }
      CollectedStep(steps, i, processed);
      processed := processed + [step.req];
      i := i + 1;
    }
    assert processed + [] == processed;
    b := Ready(processed);
  }

  /** The step for the request at index `i`, numbered from one. */
  method PrepareNth(items: seq<Value>, i: nat, ser: Serializer) returns (r: Prepared)
    requires i < |items|
    ensures r == Steps(items, ser)[i]
  {
    r := PrepareRequest(items[i], i + 1, ser);
  }

  /** Missing, empty or otherwise false `requests` end the action before anything is built, and only they give that message. */
  lemma RequestsRequiredFirst(args: Dict<Value>, ser: Serializer)
    ensures !Truthy(GetOr(args, "requests", VList([]))) <==> Action(args, ser) == Failed(RequestsRequired)
  {
    var requests := GetOr(args, "requests", VList([]));
    if Truthy(requests) && Items(requests).Ok? {
      StopNamesRequest(Items(requests).value, ser);
    }
  }

  /** The loop never stops with the message about missing `requests`. */
  lemma StopNamesRequest(items: seq<Value>, ser: Serializer)
    ensures Collected(Steps(items, ser), 0).Stopped? ==> Collected(Steps(items, ser), 0).msg != RequestsRequired
  {
    var steps := Steps(items, ser);
    StepsNameRequests(items, ser);
    StopFromSteps(steps);
  }

  /** A step that is not a rejection with the message about missing `requests`. */
  predicate NotRequired(p: Prepared) {
    p.Rejected? ==> p.msg != RequestsRequired
  }

  /** No step is rejected with the message about missing `requests`. */
  predicate NoneRequired(steps: seq<Prepared>) {
    forall i :: 0 <= i < |steps| ==> NotRequired(steps[i])
  }

  lemma StepsNameRequests(items: seq<Value>, ser: Serializer)
    ensures NoneRequired(Steps(items, ser))
  {
    forall i | 0 <= i < |items| ensures NotRequired(Steps(items, ser)[i]) {
      StepNamesRequest(items, i, ser);
    }
  }

  lemma StepNamesRequest(items: seq<Value>, i: nat, ser: Serializer)
    requires i < |items|
    ensures NotRequired(Steps(items, ser)[i])
  {
    if DictOf(items[i]).Ok? {
      RejectionNamesRequest(DictOf(items[i]).value, i + 1, ser);
    }
  }

  /** The loop stops only with the message of one of its steps. */
  lemma StopFromSteps(steps: seq<Prepared>)
    requires NoneRequired(steps)
    ensures Collected(steps, 0).Stopped? ==> Collected(steps, 0).msg != RequestsRequired
  {
    if Collected(steps, 0).Stopped? {
      CollectedAll(steps, 0);
    }
  }

  /** Every rejection message names the request it comes from; none is the message about missing `requests`. */
  lemma RejectionNamesRequest(req: Dict<Value>, n: nat, ser: Serializer)
    ensures Prepare(req, n, ser).Rejected? ==> Prepare(req, n, ser).msg != RequestsRequired
  {
    if Prepare(req, n, ser).Rejected? {
      var m := Prepare(req, n, ser).msg;
      assert m[0] == 'R' || m[0] == 'F';
      assert RequestsRequired[0] == 'P';
    }
  }

  /**
   * When the action goes ahead, `requests` was iterable and the batch module gets one prepared
   * request per item, in order; by the contract of `Prepare`, each has `body`, `endpoint_url` and
   * `soap_action`.
   */
  lemma DelegatedRequests(args: Dict<Value>, ser: Serializer)
    ensures Action(args, ser).Delegated? ==>
              var items := Items(GetOr(args, "requests", VList([])));
              var m := Action(args, ser).moduleArgs;
              && items.Ok?
              && m[0].1.VList? && |m[0].1.items| == |items.value|
              && var steps := Steps(items.value, ser);
                 forall i :: 0 <= i < |items.value| ==> steps[i].Accepted? && m[0].1.items[i] == VDict(steps[i].req)
  {
    if Action(args, ser).Delegated? {
      var items := Items(GetOr(args, "requests", VList([]))).value;
      var steps := Steps(items, ser);
      assert Action(args, ser) == Delegated(ModuleArgs(Collected(steps, 0).requests, args));
      ReadyArgs(steps, args);
    }
  }

  /** A loop that went through hands on every step's request, in order, as the `requests` argument. */
  lemma ReadyArgs(steps: seq<Prepared>, args: Dict<Value>)
    requires Collected(steps, 0).Ready?
    ensures var m := ModuleArgs(Collected(steps, 0).requests, args);
            && m[0].1.VList? && |m[0].1.items| == |steps|
            && forall i :: 0 <= i < |steps| ==> steps[i].Accepted? && m[0].1.items[i] == VDict(steps[i].req)
  {
    CollectedAll(steps, 0);
    var ps := Collected(steps, 0).requests;
    forall i | 0 <= i < |steps| ensures steps[i].Accepted? && AsValues(ps)[i] == VDict(steps[i].req) {
      assert ps[0 + i] == steps[0 + i].req;
    }
  }

  /** The batch module's other arguments are the action's settings, with their defaults when not given. */
  lemma DelegatedSettings(args: Dict<Value>, ser: Serializer)
    ensures Action(args, ser).Delegated? ==>
              var m := Action(args, ser).moduleArgs;
              && Keys(m) == ["requests", "parallel", "max_workers", "stop_on_error", "validate_certs"]
              && m[1].1 == GetOr(args, "parallel", VBool(false)) && m[2].1 == GetOr(args, "max_workers", VInt(5))
              && m[3].1 == GetOr(args, "stop_on_error", VBool(false)) && m[4].1 == GetOr(args, "validate_certs", VBool(true))
  {
    if Action(args, ser).Delegated? {
      var items := Items(GetOr(args, "requests", VList([]))).value;
      var m := ModuleArgs(Collected(Steps(items, ser), 0).requests, args);
      assert Action(args, ser).moduleArgs == m;
      assert Keys(m) == ["requests", "parallel", "max_workers", "stop_on_error", "validate_certs"];
    }
  }

  /**
   * After the `requests` check, a failure reports the first rejected request and an exception is
   * the one `enumerate` or the first unreadable `dict(req)` raised, every item before it having
   * been accepted.
   */
  lemma FirstRejectionReported(args: Dict<Value>, ser: Serializer)
    requires Truthy(GetOr(args, "requests", VList([])))
    ensures var items := Items(GetOr(args, "requests", VList([])));
            var steps := if items.Ok? then Steps(items.value, ser) else [];
            && (Action(args, ser).Failed? ==>
                  items.Ok? &&
                  exists i :: 0 <= i < |steps| && steps[i] == Rejected(Action(args, ser).msg)
                              && forall j :: 0 <= j < i ==> steps[j].Accepted?)
            && (Action(args, ser).Escaped? ==>
                  items == Fail(Action(args, ser).error) ||
                  exists i :: 0 <= i < |steps| && steps[i] == Unreadable(Action(args, ser).error)
                              && forall j :: 0 <= j < i ==> steps[j].Accepted?)
  {
    var items := Items(GetOr(args, "requests", VList([])));
    if items.Ok? {
      CollectedAll(Steps(items.value, ser), 0);
    }
  }
}
