/**
 * The unvalidated XML body of the plugin layer: any text is accepted, `from_dict`
 * builds namespace-qualified trees with or without a root element, and envelope
 * sniffing is a case-insensitive substring test.
 */
module PlainXmlBody {
  import opened Wrappers
  import opened Strings
  import opened Dicts
  import opened Values
  import opened XmlTree

  /** The body text, which may be `None`. */
  datatype XmlBody = XmlBody(value: Option<string>)

  /** `from_string` and the constructor keep any text as it is. */
  function FromString(s: string): (r: XmlBody)
    ensures r.value == Some(s)
  {
    XmlBody(Some(s))
  }

  /** `to_string` */
  function ToString(b: XmlBody): Option<string> {
    b.value
  }

  /** `len(body)`: the length of the text, 0 for `None`. */
  function Len(b: XmlBody): (r: nat)
    ensures b.value.None? ==> r == 0
    ensures b.value.Some? ==> r == |b.value.value|
  {
    match b.value
    case None => 0
    case Some(s) => |s|
  }

  /** `is_soap_envelope`: a non-empty text whose lower-cased form contains `<soap:envelope` or `<envelope`. */
  predicate IsSoapEnvelope(b: XmlBody) {
    && b.value.Some?
    && |b.value.value| > 0
    && (Contains(Lower(b.value.value), "<soap:envelope") || Contains(Lower(b.value.value), "<envelope"))
  }

  // ---------------------------------------------------------------------------
  // from_dict

  /** A namespace argument that Python treats as true. */
  predicate NsOn(ns: Option<string>) {
    ns.Some? && |ns.value| > 0
  }

  /** The tag `add_elements` gives a key: `{ns}key` under a namespace, the bare key otherwise. */
  function Tag(ns: Option<string>, key: string): string {
    if NsOn(ns) then Qualified(ns.value, key) else key
  }

  /** The elements `add_elements(parent, data)` appends to `parent`, in key order. */
  function Children(ns: Option<string>, data: Dict<Value>): seq<Node>
    decreases data, 0
  {
    if |data| == 0 then []
    else
      var e := data[|data| - 1];
      assert e in data && e.1 < e;
      Children(ns, data[..|data| - 1]) + EntryNodes(ns, e.0, e.1)
  }

  /** One entry: a nested element, one sibling per list item, an empty element for `None`, or `str()` text. */
  function EntryNodes(ns: Option<string>, key: string, v: Value): seq<Node>
    decreases v, 1
  {
    match v
    case VDict(entries) => [Node(Tag(ns, key), [], None, Children(ns, entries))]
    case VList(items) => ListNodes(ns, key, items)
    case VNone => [Node(Tag(ns, key), [], None, [])]
    case _ => [Node(Tag(ns, key), [], Some(PyStr(v)), [])]
  }

  /** One element per list item, all tagged like the key, with no wrapper. */
  function ListNodes(ns: Option<string>, key: string, items: seq<Value>): (r: seq<Node>)
    ensures |r| == |items|
    ensures forall i :: 0 <= i < |r| ==> r[i].tag == Tag(ns, key)
    ensures forall i :: 0 <= i < |r| ==> items[i] == VNone ==> r[i].text == Some("")
    decreases items, 1
  {
    if |items| == 0 then []
    else
      var item := items[|items| - 1];
      assert item in items;
      ListNodes(ns, key, items[..|items| - 1]) + [ItemNode(ns, key, item)]
  }

  /** A list item: a dict nests, `None` becomes empty text, anything else `str(item)`. */
  function ItemNode(ns: Option<string>, key: string, item: Value): (r: Node)
    ensures r.tag == Tag(ns, key)
    ensures item == VNone ==> r.text == Some("")
    decreases item, 1
  {
    match item
    case VDict(entries) => Node(Tag(ns, key), [], None, Children(ns, entries))
    case VNone => Node(Tag(ns, key), [], Some(""), [])
    case _ => Node(Tag(ns, key), [], Some(PyStr(item)), [])
  }

  /** `add_elements`: appends the elements for `data` to `parent`, entry by entry. */
  method AddElements(ns: Option<string>, data: Dict<Value>, parent: Node) returns (r: Node)
    ensures r == parent.(children := parent.children + Children(ns, data))
    decreases data, 1
  {
    r := parent;
    var i := 0;
    while i < |data|
      invariant 0 <= i <= |data|
      invariant r == parent.(children := parent.children + Children(ns, data[..i]))
    {
      var key := data[i].0;
      var value := data[i].1;
      assert data[i] in data && value < data[i];
      assert data[..i + 1][..i] == data[..i];
      assert Children(ns, data[..i + 1]) == Children(ns, data[..i]) + EntryNodes(ns, key, value);
      r := AddEntry(ns, key, value, r);
      i := i + 1;
    }
    assert data[..i] == data;
  }

  /**
   * One iteration of `add_elements`: the child is appended first; for a list it is
   * removed again and one sibling per item takes its place.
   */
  method AddEntry(ns: Option<string>, key: string, value: Value, parent: Node) returns (r: Node)
    ensures r == parent.(children := parent.children + EntryNodes(ns, key, value))
    decreases value, 0
  {
    var child := Element(Tag(ns, key));
    match value {
      case VDict(entries) =>
        child := AddElements(ns, entries, child);
        assert [] + Children(ns, entries) == Children(ns, entries);
        r := parent.(children := parent.children + [child]);
      case VList(items) =>
        r := parent.(children := parent.children + [child]);
        r := r.(children := r.children[..|r.children| - 1]);
        assert r.children == parent.children;
        var j := 0;
        while j < |items|
          invariant 0 <= j <= |items|
          invariant r == parent.(children := parent.children + ListNodes(ns, key, items[..j]))
        {
          var item := items[j];
          assert item in items;
          assert items[..j + 1][..j] == items[..j];
          var listChild := Element(Tag(ns, key));
          match item {
            case VDict(entries) =>
              listChild := AddElements(ns, entries, listChild);
              assert [] + Children(ns, entries) == Children(ns, entries);
            case VNone =>
              listChild := listChild.(text := Some(""));
            case _ =>
              listChild := listChild.(text := Some(PyStr(item)));
          }
          assert listChild == ItemNode(ns, key, item);
          r := r.(children := r.children + [listChild]);
          j := j + 1;
        }
        assert items[..j] == items;
      case VNone =>
        r := parent.(children := parent.children + [child]);
      case _ =>
        child := child.(text := Some(PyStr(value)));
        r := parent.(children := parent.children + [child]);
    }
  }

  /** What `from_dict` returns, the warnings it issues and the prefix it registers with ElementTree. */
  datatype Built = Built(body: XmlBody, warnings: seq<string>, registered: Option<(string, string)>)

  /** The `ET.register_namespace(prefix, uri)` call: the default prefix "" when no prefix is given. */
  function Registration(ns: Option<string>, prefix: Option<string>): (r: Option<(string, string)>)
    ensures r.Some? <==> NsOn(ns)
    ensures r.Some? ==> r.value.1 == ns.value
  {
    if NsOn(ns) && !(prefix.Some? && |prefix.value| > 0) then Some(("", ns.value))
    else if NsOn(ns) then Some((prefix.value, ns.value))
    else None
  }

  /** The keys as a Python list of strings. */
  function KeyList(data: Dict<Value>): (r: seq<Value>)
    ensures |r| == |data|
    ensures forall i :: 0 <= i < |data| ==> r[i] == VStr(data[i].0)
  {
    if |data| == 0 then [] else [VStr(data[0].0)] + KeyList(data[1..])
  }

  /** The UserWarning for a fragment of more than one element. */
  function FragmentWarning(data: Dict<Value>): string {
    "Ohne root_tag werden mehrere Elemente als Fragment erzeugt: " + PyRepr(VList(KeyList(data)))
    + ". Das könnte zu ungültigem XML führen!"
  }

  /** The serialised elements of a fragment, concatenated with no separator. */
  function SerializeAll(ser: Serializer, cs: seq<Node>): string
    decreases |cs|
  {
    if |cs| == 0 then "" else SerializeAll(ser, cs[..|cs| - 1]) + ser(cs[|cs| - 1])
  }

  /** `from_dict(data, root_tag, namespace, namespace_prefix)` */
  method FromDict(data: Dict<Value>, rootTag: Option<string>, ns: Option<string>, prefix: Option<string>,
                  ser: Serializer) returns (r: Result<Built>)
    ensures |data| == 0 ==> r == Fail(ValueError("data darf nicht leer sein"))
    ensures |data| > 0 && rootTag.Some? ==>
              r == Ok(Built(XmlBody(Some(ser(RootTree(rootTag.value, ns, data)))), [], Registration(ns, prefix)))
    ensures |data| > 0 && rootTag.None? ==> r == FragmentResult(data, ns, prefix, ser)
  {
    if |data| == 0 {
      return Fail(ValueError("data darf nicht leer sein"));
    }
    if rootTag.None? {
      var warnings: seq<string> := [];
      if |data| > 1 {
        warnings := [FragmentWarning(data)];
      }
      var root := AddElements(ns, data, Element("tmp_root"));
      assert root.children == Children(ns, data);
      if |root.children| == 0 {
        return Fail(ValueError("Keine XML-Elemente in data gefunden"));
      }
      var text := SerializeFragment(ser, root.children);
      r := Ok(Built(XmlBody(Some(text)), warnings, Registration(ns, prefix)));
    } else {
      var root: Node;
      var effective := ns;
      if NsOn(ns) {
        root := Element(Qualified(ns.value, rootTag.value));
      } else {
        root := Element(rootTag.value);
        effective := None;
      }
      root := AddElements(effective, data, root);
      assert root == RootTree(rootTag.value, ns, data);
      r := Ok(Built(XmlBody(Some(ser(root))), [], Registration(ns, prefix)));
    }
  }

  /** The `''.join(ET.tostring(child) for child in children)` loop. */
  method SerializeFragment(ser: Serializer, children: seq<Node>) returns (text: string)
    ensures text == SerializeAll(ser, children)
  {
    text := "";
    var i := 0;
    while i < |children|
      invariant 0 <= i <= |children|
      invariant text == SerializeAll(ser, children[..i])
    {
      assert children[..i + 1][..i] == children[..i];
      text := text + ser(children[i]);
      i := i + 1;
    }
    assert children[..i] == children;
  }

  /** The tree built under a root tag: the root is qualified iff the namespace is set, and so is every descendant. */
  function RootTree(rootTag: string, ns: Option<string>, data: Dict<Value>): Node {
    Node(Tag(ns, rootTag), [], None, Children(if NsOn(ns) then ns else None, data))
  }

  /** Without a root tag: the top-level elements serialised one after the other, warning about more than one key. */
  function FragmentResult(data: Dict<Value>, ns: Option<string>, prefix: Option<string>, ser: Serializer): (r: Result<Built>)
    requires |data| > 0
    ensures r.Fail? <==> |Children(ns, data)| == 0
    ensures r.Ok? ==> (|r.value.warnings| > 0 <==> |data| > 1)
  {
    var cs := Children(ns, data);
    if |cs| == 0 then Fail(ValueError("Keine XML-Elemente in data gefunden"))
    else Ok(Built(XmlBody(Some(SerializeAll(ser, cs))), if |data| > 1 then [FragmentWarning(data)] else [],
                  Registration(ns, prefix)))
  }

  // ---------------------------------------------------------------------------
  // Properties

  /** Every tag of a tree prefixed with `{uri}`. */
  function Qualify(uri: string, n: Node): (r: Node)
    ensures r.tag == Qualified(uri, n.tag)
    decreases n
  {
    Node(Qualified(uri, n.tag), n.attrs, n.text, QualifyAll(uri, n.children))
  }

  function QualifyAll(uri: string, cs: seq<Node>): (r: seq<Node>)
    ensures |r| == |cs|
    decreases cs
  {
    if |cs| == 0 then [] else [Qualify(uri, cs[0])] + QualifyAll(uri, cs[1..])
  }

  lemma {:induction false} QualifyAllConcat(uri: string, xs: seq<Node>, ys: seq<Node>)
    ensures QualifyAll(uri, xs + ys) == QualifyAll(uri, xs) + QualifyAll(uri, ys)
    decreases |xs|
  {
    if |xs| > 0 {
      assert (xs + ys)[1..] == xs[1..] + ys;
      QualifyAllConcat(uri, xs[1..], ys);
    } else {
      assert xs + ys == ys;
    }
  }

  /** Under a namespace, the elements are exactly those built without one, with every tag qualified. */
  lemma {:induction false} ChildrenQualified(uri: string, data: Dict<Value>)
    requires |uri| > 0
    ensures Children(Some(uri), data) == QualifyAll(uri, Children(None, data))
    decreases data, 0
  {
    if |data| > 0 {
      var init := data[..|data| - 1];
      var e := data[|data| - 1];
      assert e in data && e.1 < e;
      assert Children(Some(uri), data) == Children(Some(uri), init) + EntryNodes(Some(uri), e.0, e.1);
      assert Children(None, data) == Children(None, init) + EntryNodes(None, e.0, e.1);
      ChildrenQualified(uri, init);
      EntryQualified(uri, e.0, e.1);
      QualifyAllConcat(uri, Children(None, init), EntryNodes(None, e.0, e.1));
    }
  }

  lemma {:induction false} EntryQualified(uri: string, key: string, v: Value)
    requires |uri| > 0
    ensures EntryNodes(Some(uri), key, v) == QualifyAll(uri, EntryNodes(None, key, v))
    decreases v, 1
  {
    match v {
      case VDict(entries) =>
        ChildrenQualified(uri, entries);
        assert QualifyAll(uri, EntryNodes(None, key, v)) == [Qualify(uri, EntryNodes(None, key, v)[0])];
      case VList(items) =>
        ListQualified(uri, key, items);
      case VNone =>
        assert QualifyAll(uri, EntryNodes(None, key, v)) == [Qualify(uri, EntryNodes(None, key, v)[0])];
      case _ =>
        assert QualifyAll(uri, EntryNodes(None, key, v)) == [Qualify(uri, EntryNodes(None, key, v)[0])];
    }
  }

  lemma {:induction false} ListQualified(uri: string, key: string, items: seq<Value>)
    requires |uri| > 0
    ensures ListNodes(Some(uri), key, items) == QualifyAll(uri, ListNodes(None, key, items))
    decreases items, 1
  {
    if |items| > 0 {
      var init := items[..|items| - 1];
      var item := items[|items| - 1];
      assert item in items;
      assert ListNodes(Some(uri), key, items) == ListNodes(Some(uri), key, init) + [ItemNode(Some(uri), key, item)];
      assert ListNodes(None, key, items) == ListNodes(None, key, init) + [ItemNode(None, key, item)];
      ListQualified(uri, key, init);
      ItemQualified(uri, key, item);
      QualifyAllConcat(uri, ListNodes(None, key, init), [ItemNode(None, key, item)]);
      assert QualifyAll(uri, [ItemNode(None, key, item)]) == [Qualify(uri, ItemNode(None, key, item))];
    }
  }

  lemma {:induction false} ItemQualified(uri: string, key: string, item: Value)
    requires |uri| > 0
    ensures ItemNode(Some(uri), key, item) == Qualify(uri, ItemNode(None, key, item))
    decreases item, 0
  {
    if item.VDict? {
      ChildrenQualified(uri, item.entries);
    }
  }

  /** Every element of a qualified forest, at any depth, carries the `{uri}` prefix. */
  lemma {:induction false} QualifyAllTags(uri: string, cs: seq<Node>)
    ensures forall m :: m in Descendants(QualifyAll(uri, cs)) ==> StartsWith(m.tag, "{" + uri + "}")
    decreases cs
  {
    if |cs| > 0 {
      var q := QualifyAll(uri, cs);
      assert q[0] == Qualify(uri, cs[0]) && q[1..] == QualifyAll(uri, cs[1..]);
      assert Descendants(q) == [q[0]] + Descendants(q[0].children) + Descendants(q[1..]);
      QualifyAllTags(uri, cs[0].children);
      QualifyAllTags(uri, cs[1..]);
      assert Qualified(uri, cs[0].tag)[..|"{" + uri + "}"|] == "{" + uri + "}";
    }
  }

  /**
   * With a root tag and a namespace, the tree is the unqualified tree with every tag,
   * the root's included, in the namespace.
   */
  lemma RootTreeQualified(rootTag: string, uri: string, data: Dict<Value>)
    requires |uri| > 0
    ensures RootTree(rootTag, Some(uri), data) == Qualify(uri, RootTree(rootTag, None, data))
    ensures forall m :: m in Descendants([RootTree(rootTag, Some(uri), data)]) ==> StartsWith(m.tag, "{" + uri + "}")
  {
    ChildrenQualified(uri, data);
    var t := RootTree(rootTag, None, data);
    assert QualifyAll(uri, [t]) == [Qualify(uri, t)];
    QualifyAllTags(uri, [t]);
  }

  /** Without a namespace (or with an empty one) no element is qualified: every tag is a key of the data. */
  lemma {:induction false} UnqualifiedTags(data: Dict<Value>, ns: Option<string>)
    requires !NsOn(ns)
    ensures Children(ns, data) == Children(None, data)
    decreases data, 0
  {
    if |data| > 0 {
      var e := data[|data| - 1];
      assert e in data && e.1 < e;
      UnqualifiedTags(data[..|data| - 1], ns);
      UnqualifiedEntry(e.0, e.1, ns);
    }
  }

  lemma {:induction false} UnqualifiedEntry(key: string, v: Value, ns: Option<string>)
    requires !NsOn(ns)
    ensures EntryNodes(ns, key, v) == EntryNodes(None, key, v)
    decreases v, 1
  {
    match v {
      case VDict(entries) => UnqualifiedTags(entries, ns);
      case VList(items) => UnqualifiedList(key, items, ns);
      case _ =>
    }
  }

  lemma {:induction false} UnqualifiedList(key: string, items: seq<Value>, ns: Option<string>)
    requires !NsOn(ns)
    ensures ListNodes(ns, key, items) == ListNodes(None, key, items)
    decreases items, 1
  {
    if |items| > 0 {
      var item := items[|items| - 1];
      assert item in items;
      UnqualifiedList(key, items[..|items| - 1], ns);
      if item.VDict? {
        UnqualifiedTags(item.entries, ns);
      }
    }
  }

  /** A list entry contributes one sibling per item, in item order, and nothing for an empty list. */
  lemma ListEntrySiblings(ns: Option<string>, key: string, items: seq<Value>)
    ensures |EntryNodes(ns, key, VList(items))| == |items|
    ensures forall i :: 0 <= i < |items| ==> EntryNodes(ns, key, VList(items))[i] == ItemNode(ns, key, items[i])
  {
    ListNodesItems(ns, key, items);
  }

  lemma {:induction false} ListNodesItems(ns: Option<string>, key: string, items: seq<Value>)
    ensures forall i :: 0 <= i < |items| ==> ListNodes(ns, key, items)[i] == ItemNode(ns, key, items[i])
    decreases |items|
  {
    if |items| > 0 {
      var init := items[..|items| - 1];
      ListNodesItems(ns, key, init);
      assert forall i :: 0 <= i < |init| ==> items[i] == init[i];
    }
  }

  /** Without a root tag and with a single scalar entry, the output is that one serialised element and no warning. */
  lemma SingleEntryFragment(key: string, v: Value, ns: Option<string>, prefix: Option<string>, ser: Serializer)
    requires !v.VDict? && !v.VList?
    ensures FragmentResult([(key, v)], ns, prefix, ser) ==
              Ok(Built(XmlBody(Some(ser(EntryNodes(ns, key, v)[0]))), [], Registration(ns, prefix)))
  {
    var data := [(key, v)];
    assert data[..0] == [] && data[0] == (key, v);
    assert Children(ns, data) == Children(ns, []) + EntryNodes(ns, key, v);
    var cs := Children(ns, data);
    assert |cs| == 1 && cs[0] == EntryNodes(ns, key, v)[0];
    assert cs[..0] == [];
    assert SerializeAll(ser, cs) == SerializeAll(ser, cs[..0]) + ser(cs[0]);
    assert SerializeAll(ser, cs) == ser(EntryNodes(ns, key, v)[0]);
    assert FragmentResult(data, ns, prefix, ser) == Ok(Built(XmlBody(Some(SerializeAll(ser, cs))), [], Registration(ns, prefix)));
  }

  /** A fragment fails only when every entry is an empty list. */
  lemma {:induction false} FragmentEmptyIff(ns: Option<string>, data: Dict<Value>)
    ensures |Children(ns, data)| == 0 <==> forall i :: 0 <= i < |data| ==> data[i].1 == VList([])
    decreases |data|
  {
    if |data| > 0 {
      var init := data[..|data| - 1];
      var e := data[|data| - 1];
      FragmentEmptyIff(ns, init);
      assert |EntryNodes(ns, e.0, e.1)| == 0 <==> e.1 == VList([]);
      assert forall i :: 0 <= i < |init| ==> data[i] == init[i];
    }
  }

  /** Envelope sniffing ignores ASCII case: any text containing `<SOAP:Envelope`, `<soap:ENVELOPE`, ... is an envelope. */
  lemma EnvelopeAnyCase(s: string, t: string)
    requires Contains(s, t)
    requires Lower(t) == "<soap:envelope" || Lower(t) == "<envelope"
    ensures IsSoapEnvelope(FromString(s))
  {
    LowerContains(s, t);
  }

  /** A missing or empty text is never an envelope, and its length is 0. */
  lemma EmptyNotEnvelope(b: XmlBody)
    requires b.value.None? || b.value == Some("")
    ensures !IsSoapEnvelope(b) && Len(b) == 0
  {
  }

  /** `to_string(from_string(s))` is `s`. */
  lemma StringRoundTrip(s: string)
    ensures ToString(FromString(s)) == Some(s) && Len(FromString(s)) == |s|
  {
  }
}
