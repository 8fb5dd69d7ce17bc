/**
 * The XML parser adapter: parsing with a wrapped error, element <-> dict conversion,
 * text lookup, namespace extraction and removal, and SOAP Body extraction.
 */
module XmlParser {
  import opened Wrappers
  import opened Strings
  import opened Dicts
  import opened Values
  import opened XmlTree
  import opened PyDict
  import XmlBody

  /** `parse`: the root element, or `XmlParserError` carrying the parser's message. */
  function Parse(s: string, parse: Parser): (r: Result<Node>)
    ensures r.Ok? <==> parse(s).Parsed?
    ensures r.Ok? ==> r.value == parse(s).root
    ensures r.Fail? ==> r.error == XmlParserError("XML-Parsing fehlgeschlagen: " + parse(s).detail)
  {
    match parse(s)
    case Parsed(root) => Ok(root)
    case ParseError(detail) => Fail(XmlParserError("XML-Parsing fehlgeschlagen: " + detail))
  }

  /** `validate_xml`: whether the text parses, that is whether `parse` would return instead of raising. */
  predicate ValidateXml(s: string, parse: Parser): (b: bool)
    ensures b <==> Parse(s, parse).Ok?
  {
    parse(s).Parsed?
  }

  // ---------------------------------------------------------------------------
  // Namespaces

  /** `_remove_namespace`: the part after the first '}' (up to any further '}'), or the tag unchanged. */
  function RemoveNamespace(tag: string): (r: string)
    ensures '}' !in r
    ensures '}' !in tag ==> r == tag
  {
    if '}' in tag then Split(tag, '}')[1] else tag
  }

  /** A Clark-notation tag loses exactly its `{uri}` part. */
  lemma RemoveQualified(uri: string, local: string)
    requires '}' !in uri && '}' !in local
    ensures RemoveNamespace(Qualified(uri, local)) == local
  {
    var t := Qualified(uri, local);
    var i := |uri| + 1;
    assert t[i] == '}';
    assert forall j :: 0 <= j < i ==> t[j] != '}' by {
      forall j | 0 <= j < i ensures t[j] != '}' {
        if j > 0 { assert t[j] == uri[j - 1]; }
      }
    }
    IndexOfAt(t, '}', i);
    assert t[i + 1..] == local;
    assert Split(t, '}') == [t[..i]] + Split(local, '}');
  }

  lemma IndexOfAt(s: string, c: char, i: nat)
    requires i < |s| && s[i] == c && forall j :: 0 <= j < i ==> s[j] != c
    ensures IndexOf(s, c) == Some(i)
  {
  }

  /** `strip_namespaces`: every tag of the tree without its namespace; attributes, text and shape are kept. */
  function StripNamespaces(n: Node): (r: Node)
    ensures r.tag == RemoveNamespace(n.tag) && r.attrs == n.attrs && r.text == n.text
    ensures |r.children| == |n.children|
    decreases n
  {
    Node(RemoveNamespace(n.tag), n.attrs, n.text, StripAll(n.children))
  }

  function StripAll(cs: seq<Node>): (r: seq<Node>)
    ensures |r| == |cs|
    decreases cs
  {
    if |cs| == 0 then [] else [StripNamespaces(cs[0])] + StripAll(cs[1..])
  }

  /** `strip_namespaces`, child by child as the source recurses. */
  method StripElement(element: Node) returns (r: Node)
    ensures r == StripNamespaces(element)
    decreases element
  {
    var tag := element.tag;
    if '}' in tag {
      tag := Split(tag, '}')[1];
    }
    var children: seq<Node> := [];
    var i := 0;
    while i < |element.children|
      invariant 0 <= i <= |element.children|
      invariant children == StripAll(element.children[..i])
    {
      var child := element.children[i];
      assert child in element.children;
      var stripped := StripElement(child);
      StripAllSnoc(element.children[..i], child);
      assert element.children[..i + 1] == element.children[..i] + [child];
      children := children + [stripped];
      i := i + 1;
    }
    assert element.children[..i] == element.children;
    r := Node(tag, element.attrs, element.text, children);
  }

  lemma {:induction false} StripAllSnoc(cs: seq<Node>, c: Node)
    ensures StripAll(cs + [c]) == StripAll(cs) + [StripNamespaces(c)]
    decreases |cs|
  {
    if |cs| == 0 {
      assert cs + [c] == [c];
    } else {
      assert (cs + [c])[1..] == cs[1..] + [c];
      StripAllSnoc(cs[1..], c);
    }
  }

  /** No tag of a stripped tree, at any depth, contains '}'. */
  lemma {:induction false} StrippedHasNoNamespace(cs: seq<Node>)
    ensures forall m :: m in Descendants(StripAll(cs)) ==> '}' !in m.tag
    decreases cs
  {
    if |cs| > 0 {
      var s := StripAll(cs);
      assert s[0] == StripNamespaces(cs[0]) && s[1..] == StripAll(cs[1..]);
      assert Descendants(s) == [s[0]] + Descendants(s[0].children) + Descendants(s[1..]);
      StrippedHasNoNamespace(cs[0].children);
      StrippedHasNoNamespace(cs[1..]);
    }
  }

  /** Stripping twice is stripping once. */
  lemma {:induction false} StripIdempotent(n: Node)
    ensures StripNamespaces(StripNamespaces(n)) == StripNamespaces(n)
    decreases n, 1
  {
    StripAllIdempotent(n.children);
  }

  lemma {:induction false} StripAllIdempotent(cs: seq<Node>)
    ensures StripAll(StripAll(cs)) == StripAll(cs)
    decreases cs, 0
  {
    if |cs| > 0 {
      StripIdempotent(cs[0]);
      StripAllIdempotent(cs[1..]);
      assert StripAll(cs)[1..] == StripAll(cs[1..]);
    }
  }

  /** Stripping keeps the number of elements. */
  lemma {:induction false} StripSize(n: Node)
    ensures Size(StripNamespaces(n)) == Size(n)
    decreases n, 1
  {
    StripAllSize(n.children);
  }

  lemma {:induction false} StripAllSize(cs: seq<Node>)
    ensures SizeAll(StripAll(cs)) == SizeAll(cs)
    decreases cs, 0
  {
    if |cs| > 0 {
      StripSize(cs[0]);
      StripAllSize(cs[1..]);
      assert StripAll(cs)[1..] == StripAll(cs[1..]);
    }
  }

  const XmlnsPrefix: string := "{http://www.w3.org/2000/xmlns/}"

  /** The `xmlns:` attributes of an element, as prefix -> URI, in attribute order. */
  function AttributeNamespaces(attrs: Dict<string>): Dict<string>
    decreases |attrs|
  {
    if |attrs| == 0 then []
    else
      var acc := AttributeNamespaces(attrs[..|attrs| - 1]);
      var a := attrs[|attrs| - 1];
      // an attribute name starting with the xmlns URI holds a '}', so this is the part after it
      if StartsWith(a.0, XmlnsPrefix) then Set(acc, RemoveNamespace(a.0), a.1) else acc
  }

  /** `extract_namespaces`: the `xmlns:` attributes, and under `''` the URI of a namespaced root tag. */
  function ExtractNamespaces(element: Node): Dict<string> {
    var fromAttrs := AttributeNamespaces(element.attrs);
    if StartsWith(element.tag, "{") then Set(fromAttrs, "", Split(element.tag[1..], '}')[0]) else fromAttrs
  }

  /**
   * An `xmlns:` attribute that no later `xmlns:` attribute redeclares gives its prefix its URI: the last
   * declaration of a prefix wins.
   */
  lemma {:induction false} LastDeclarationWins(attrs: Dict<string>, i: nat)
    requires i < |attrs| && StartsWith(attrs[i].0, XmlnsPrefix)
    requires forall j :: i < j < |attrs| && StartsWith(attrs[j].0, XmlnsPrefix) ==>
               RemoveNamespace(attrs[j].0) != RemoveNamespace(attrs[i].0)
    ensures Get(AttributeNamespaces(attrs), RemoveNamespace(attrs[i].0)) == Some(attrs[i].1)
    decreases |attrs|
  {
    var front := attrs[..|attrs| - 1];
    var a := attrs[|attrs| - 1];
    var p := RemoveNamespace(attrs[i].0);
    if i == |attrs| - 1 {
      GetSetSame(AttributeNamespaces(front), p, a.1);
    } else {
      assert front[i] == attrs[i];
      LastDeclarationWins(front, i);
      if StartsWith(a.0, XmlnsPrefix) {
        GetSetOther(AttributeNamespaces(front), RemoveNamespace(a.0), a.1, p);
      }
    }
  }

  /** The root's own declarations survive unless the root tag's namespace claims the default prefix. */
  lemma DeclarationExtracted(element: Node, i: nat)
    requires i < |element.attrs| && StartsWith(element.attrs[i].0, XmlnsPrefix)
    requires forall j :: i < j < |element.attrs| && StartsWith(element.attrs[j].0, XmlnsPrefix) ==>
               RemoveNamespace(element.attrs[j].0) != RemoveNamespace(element.attrs[i].0)
    requires RemoveNamespace(element.attrs[i].0) != "" || !StartsWith(element.tag, "{")
    ensures Get(ExtractNamespaces(element), RemoveNamespace(element.attrs[i].0)) == Some(element.attrs[i].1)
  {
    var p := RemoveNamespace(element.attrs[i].0);
    LastDeclarationWins(element.attrs, i);
    if StartsWith(element.tag, "{") {
      GetSetOther(AttributeNamespaces(element.attrs), "", Split(element.tag[1..], '}')[0], p);
    }
  }

  /** A root tag in Clark notation contributes its URI as the default namespace. */
  lemma DefaultNamespace(element: Node, uri: string, local: string)
    requires element.tag == Qualified(uri, local) && '}' !in uri
    ensures Get(ExtractNamespaces(element), "") == Some(uri)
  {
    var t := element.tag;
    assert t[1..] == uri + "}" + local;
    var s := t[1..];
    assert s[|uri|] == '}';
    assert forall j :: 0 <= j < |uri| ==> s[j] == uri[j];
    IndexOfAt(s, '}', |uri|);
    assert s[..|uri|] == uri;
    assert t[..1] == "{";
    GetSetSame(AttributeNamespaces(element.attrs), "", uri);
  }

  /** Without `xmlns:` attributes and with a plain root tag there are no namespaces. */
  lemma {:induction false} NoNamespaces(attrs: Dict<string>)
    requires forall i :: 0 <= i < |attrs| ==> !StartsWith(attrs[i].0, XmlnsPrefix)
    ensures AttributeNamespaces(attrs) == []
    decreases |attrs|
  {
    if |attrs| > 0 {
      NoNamespaces(attrs[..|attrs| - 1]);
    }
  }

  // ---------------------------------------------------------------------------
  // element_to_dict

  /** The children folded into the result dict under their namespace-free tags. */
  function ChildFold(acc: Dict<Value>, cs: seq<Node>): Dict<Value>
    decreases cs, 0
  {
    if |cs| == 0 then acc
    else
      var c := cs[|cs| - 1];
      assert c in cs;
      XmlBody.AddChild(ChildFold(acc, cs[..|cs| - 1]), RemoveNamespace(c.tag), ElementDict(c))
  }

  /** The dict `element_to_dict` fills before deciding what to return: attributes, text, then children. */
  function ElementEntries(n: Node): Dict<Value>
    decreases n, 1
  {
    ChildFold(OwnEntries(n), n.children)
  }

  /** The entries from the element itself, before its children: attributes, then text. */
  function OwnEntries(n: Node): Dict<Value> {
    var withAttrs: Dict<Value> := if |n.attrs| > 0 then [("@attributes", VDict(XmlBody.AttrsValue(n.attrs)))] else [];
    if n.text.Some? && |Strip(n.text.value)| > 0 then Set(withAttrs, "#text", VStr(Strip(n.text.value))) else withAttrs
  }

  /** `element_to_dict`: the dict, or the text alone when the text is all there is. */
  function ElementDict(n: Node): Value
    decreases n, 2
  {
    var result := ElementEntries(n);
    if |result| == 1 && HasKey(result, "#text") then Get(result, "#text").value else VDict(result)
  }

  /** `element_to_dict`, computed child by child as the source does. */
  method ElementToDict(n: Node) returns (r: Value)
    ensures r == ElementDict(n)
    decreases n, 1
  {
    var result: Dict<Value> := [];
    if |n.attrs| > 0 {
      result := Set(result, "@attributes", VDict(XmlBody.AttrsValue(n.attrs)));
    }
    if n.text.Some? && |Strip(n.text.value)| > 0 {
      result := Set(result, "#text", VStr(Strip(n.text.value)));
    }
    assert result == OwnEntries(n);
    result := AddChildren(n, result);
    if |result| == 1 && HasKey(result, "#text") {
      return Get(result, "#text").value;
    }
    r := VDict(result);
  }

  /** The loop of `element_to_dict` over the children of `n`, adding each under its namespace-free tag. */
  method AddChildren(n: Node, acc: Dict<Value>) returns (result: Dict<Value>)
    ensures result == ChildFold(acc, n.children)
    decreases n, 0
  {
    result := acc;
    ChildFoldNone(acc, n.children);
    var i := 0;
    while i < |n.children|
      invariant 0 <= i <= |n.children|
      invariant result == ChildFold(acc, n.children[..i])
    {
      var child := n.children[i];
      assert child in n.children;
      var childData := ElementToDict(child);
      var tag := RemoveNamespace(child.tag);
      ghost var before := result;
      match Get(result, tag) {
        case Some(prev) =>
          var items := if prev.VList? then prev.items else [prev];
          result := Set(result, tag, VList(items + [childData]));
        case None =>
          result := Set(result, tag, childData);
      }
      FoldedOneMore(acc, n.children, i, before, childData, result);
      i := i + 1;
    }
    assert n.children[..i] == n.children;
  }

  /** Folding no children leaves the entries as they are. */
  lemma ChildFoldNone(acc: Dict<Value>, cs: seq<Node>)
    ensures ChildFold(acc, cs[..0]) == acc
  {
    assert |cs[..0]| == 0;
  }

  /** The loop step of `element_to_dict`: the entries with child `i` added are the fold of one more child. */
  lemma FoldedOneMore(acc: Dict<Value>, cs: seq<Node>, i: nat, before: Dict<Value>, childData: Value, result: Dict<Value>)
    requires i < |cs| && before == ChildFold(acc, cs[..i]) && childData == ElementDict(cs[i])
    requires result == match Get(before, RemoveNamespace(cs[i].tag))
                       case Some(prev) => Set(before, RemoveNamespace(cs[i].tag), VList((if prev.VList? then prev.items else [prev]) + [childData]))
                       case None => Set(before, RemoveNamespace(cs[i].tag), childData)
    ensures result == ChildFold(acc, cs[..i + 1])
  {
    ChildFoldSnoc(acc, cs, i);
  }

  /** Folding one more child is one `AddChild` under its namespace-free tag. */
  lemma ChildFoldSnoc(acc: Dict<Value>, cs: seq<Node>, i: nat)
    requires i < |cs|
    ensures ChildFold(acc, cs[..i + 1]) == XmlBody.AddChild(ChildFold(acc, cs[..i]), RemoveNamespace(cs[i].tag), ElementDict(cs[i]))
  {
    assert cs[..i + 1][..i] == cs[..i];
  }

  /** The values of the children whose namespace-free tag is `tag`, in document order. */
  function TaggedDicts(cs: seq<Node>, tag: string): seq<Value>
    decreases cs
  {
    if |cs| == 0 then []
    else
      var c := cs[|cs| - 1];
      TaggedDicts(cs[..|cs| - 1], tag) + (if RemoveNamespace(c.tag) == tag then [ElementDict(c)] else [])
  }

  /**
   * Children are keyed by their namespace-free tag; a repeated tag collects every occurrence
   * in document order in one list (given that no child value is itself a list).
   */
  lemma {:induction false} ChildFoldGet(acc: Dict<Value>, cs: seq<Node>, tag: string)
    requires !HasKey(acc, tag)
    requires forall i :: 0 <= i < |cs| ==> !ElementDict(cs[i]).VList?
    ensures var vs := TaggedDicts(cs, tag);
            Get(ChildFold(acc, cs), tag) ==
              if |vs| == 0 then None else if |vs| == 1 then Some(vs[0]) else Some(VList(vs))
    decreases cs
  {
    if |cs| > 0 {
      var init := cs[..|cs| - 1];
      var c := cs[|cs| - 1];
      assert forall i :: 0 <= i < |init| ==> !ElementDict(init[i]).VList? by {
        assert forall i :: 0 <= i < |init| ==> init[i] == cs[i];
      }
      ChildFoldGet(acc, init, tag);
      if RemoveNamespace(c.tag) == tag {
        assert TaggedDicts(cs, tag) == TaggedDicts(init, tag) + [ElementDict(c)];
        TaggedDictsPlain(init, tag);
        GetAddedSame(ChildFold(acc, init), tag, ElementDict(c), TaggedDicts(init, tag));
      } else {
        assert TaggedDicts(cs, tag) == TaggedDicts(init, tag);
        XmlBody.AddChildOther(ChildFold(acc, init), RemoveNamespace(c.tag), ElementDict(c), tag);
      }
    } else {
      assert Get(acc, tag).None?;
    }
  }

  /** One more value under a tag that holds the plain values `vs` makes them `vs + [v]`, collected as the fold collects them. */
  lemma GetAddedSame(d: Dict<Value>, tag: string, v: Value, vs: seq<Value>)
    requires forall i :: 0 <= i < |vs| ==> !vs[i].VList?
    requires Get(d, tag) == if |vs| == 0 then None else if |vs| == 1 then Some(vs[0]) else Some(VList(vs))
    ensures var ws := vs + [v];
            Get(XmlBody.AddChild(d, tag, v), tag) == if |ws| == 1 then Some(ws[0]) else Some(VList(ws))
  {
    XmlBody.AddChildSame(d, tag, v);
    if |vs| == 1 {
      assert [vs[0]] + [v] == vs + [v];
    }
  }

  lemma {:induction false} TaggedDictsPlain(cs: seq<Node>, tag: string)
    requires forall i :: 0 <= i < |cs| ==> !ElementDict(cs[i]).VList?
    ensures forall i :: 0 <= i < |TaggedDicts(cs, tag)| ==> !TaggedDicts(cs, tag)[i].VList?
    decreases cs
  {
    if |cs| > 0 {
      var init := cs[..|cs| - 1];
      assert forall i :: 0 <= i < |init| ==> init[i] == cs[i];
      TaggedDictsPlain(init, tag);
    }
  }

  /** A leaf with text only yields the stripped text; an empty leaf yields `{}`. */
  lemma LeafDict(tag: string, text: Option<string>)
    ensures var v := ElementDict(Node(tag, [], text, []));
            if text.Some? && |Strip(text.value)| > 0 then v == VStr(Strip(text.value)) else v == VDict([])
  {
    var n := Node(tag, [], text, []);
    if text.Some? && |Strip(text.value)| > 0 {
      var d: Dict<Value> := Set([], "#text", VStr(Strip(text.value)));
      assert d == [("#text", VStr(Strip(text.value)))];
      assert ElementEntries(n) == d;
      assert Keys(d) == ["#text"];
      assert Get(d, "#text") == Some(VStr(Strip(text.value)));
    } else {
      assert ElementEntries(n) == [];
    }
  }

  /** Attributes are kept under `@attributes`, so an element with attributes always yields a dict. */
  lemma AttributesKept(n: Node)
    requires |n.attrs| > 0
    requires forall i :: 0 <= i < |n.children| ==> RemoveNamespace(n.children[i].tag) != "@attributes"
    ensures ElementDict(n).VDict?
    ensures Get(ElementDict(n).entries, "@attributes") == Some(VDict(XmlBody.AttrsValue(n.attrs)))
  {
    var withAttrs: Dict<Value> := [("@attributes", VDict(XmlBody.AttrsValue(n.attrs)))];
    var withText := if n.text.Some? && |Strip(n.text.value)| > 0 then Set(withAttrs, "#text", VStr(Strip(n.text.value))) else withAttrs;
    if n.text.Some? && |Strip(n.text.value)| > 0 {
      GetSetOther(withAttrs, "#text", VStr(Strip(n.text.value)), "@attributes");
    }
    assert Get(withText, "@attributes") == Some(VDict(XmlBody.AttrsValue(n.attrs)));
    ChildFoldOther(withText, n.children, "@attributes");
    var result := ElementEntries(n);
    assert Get(result, "@attributes").Some?;
    assert "@attributes" in Keys(result);
    assert !(|result| == 1 && HasKey(result, "#text"));
  }

  /** A key no child maps to is left alone by the fold. */
  lemma {:induction false} ChildFoldOther(acc: Dict<Value>, cs: seq<Node>, key: string)
    requires forall i :: 0 <= i < |cs| ==> RemoveNamespace(cs[i].tag) != key
    ensures Get(ChildFold(acc, cs), key) == Get(acc, key)
    decreases cs
  {
    if |cs| > 0 {
      var init := cs[..|cs| - 1];
      var c := cs[|cs| - 1];
      assert forall i :: 0 <= i < |init| ==> init[i] == cs[i];
      ChildFoldOther(acc, init, key);
      XmlBody.AddChildOther(ChildFold(acc, init), RemoveNamespace(c.tag), ElementDict(c), key);
    }
  }

  // ---------------------------------------------------------------------------
  // dict_to_element

  /** `_dict_to_element_recursive(parent, data)`: a dict fills `parent` entry by entry; anything else becomes its text. */
  function Fill(parent: Node, data: Value): (r: Result<Node>)
    ensures r.Ok? ==> r.value.tag == parent.tag && parent.children <= r.value.children
    ensures !data.VDict? ==> r.Ok? && r.value.text == Some(PyStr(data))
    decreases data, 0
  {
    match data
    case VDict(entries) => FillEntries(parent, entries)
    case _ => Ok(parent.(text := Some(PyStr(data))))
  }

  /** The entries of a dict applied to `parent` in order; the first failure stops the walk. */
  function FillEntries(parent: Node, entries: Dict<Value>): (r: Result<Node>)
    ensures r.Ok? ==> r.value.tag == parent.tag && parent.children <= r.value.children
    decreases entries, 1
  {
    if |entries| == 0 then Ok(parent)
    else
      var e := entries[|entries| - 1];
      assert e in entries && e.1 < e;
      match FillEntries(parent, entries[..|entries| - 1])
      case Fail(err) => Fail(err)
      case Ok(p) => FillEntry(p, e.0, e.1)
  }

  /**
   * One entry: `@attributes` merges into the attributes whatever `attrib.update` accepts (a dict, a
   * sequence of pairs, an empty string), `#text` sets the text, a list repeats the child.
   */
  function FillEntry(parent: Node, key: string, value: Value): (r: Result<Node>)
    ensures r.Ok? ==> r.value.tag == parent.tag && parent.children <= r.value.children
    ensures key == "@attributes" ==> (r.Ok? <==> DictOf(value).Ok?) && (r.Ok? ==> r.value.children == parent.children)
    ensures key == "@attributes" && r.Fail? ==> r.error == DictOf(value).error
    ensures key != "@attributes" && key != "#text" && !value.VList? && r.Ok? ==>
              |r.value.children| == |parent.children| + 1 && r.value.children[|parent.children|].tag == key
    decreases value, 1
  {
    if key == "@attributes" then
      match DictOf(value)
      case Fail(err) => Fail(err)
      case Ok(entries) => Ok(parent.(attrs := Update(parent.attrs, AttributeStrings(entries))))
    else if key == "#text" then Ok(parent.(text := Some(PyStr(value))))
    else if value.VList? then FillItems(parent, key, value.items)
    else
      match Fill(Element(key), value)
      case Fail(err) => Fail(err)
      case Ok(child) => Ok(parent.(children := parent.children + [child]))
  }

  /** One child per list item, each filled from its item. */
  function FillItems(parent: Node, key: string, items: seq<Value>): (r: Result<Node>)
    ensures r.Ok? ==> r.value.tag == parent.tag && parent.children <= r.value.children
    decreases items, 1
  {
    if |items| == 0 then Ok(parent)
    else
      var item := items[|items| - 1];
      assert item in items;
      match FillItems(parent, key, items[..|items| - 1])
      case Fail(err) => Fail(err)
      case Ok(p) =>
        match Fill(Element(key), item)
        case Fail(err) => Fail(err)
        case Ok(child) => Ok(p.(children := p.children + [child]))
  }

  /**
   * Attribute values as text: `str()` of each value. ElementTree itself keeps the value as given and
   * only a later `tostring` refuses one that is not a string.
   */
  function AttributeStrings(entries: Dict<Value>): (r: Dict<string>)
    ensures |r| == |entries|
    ensures forall i :: 0 <= i < |entries| ==> r[i] == (entries[i].0, PyStr(entries[i].1))
  {
    if |entries| == 0 then [] else [(entries[0].0, PyStr(entries[0].1))] + AttributeStrings(entries[1..])
  }

  /** `dict_to_element(data, root_tag)` */
  function DictToElement(data: Value, rootTag: string): (r: Result<Node>)
    ensures r.Ok? ==> r.value.tag == rootTag
    ensures !data.VDict? ==> r == Ok(Node(rootTag, [], Some(PyStr(data)), []))
  {
    Fill(Element(rootTag), data)
  }

  /** Flat data: distinct ordinary keys without '}', each holding a trimmed non-empty string. */
  predicate FlatData(es: Dict<Value>) {
    && UniqueKeys(es)
    && forall i :: 0 <= i < |es| ==>
         es[i].0 != "@attributes" && es[i].0 != "#text" && '}' !in es[i].0
         && es[i].1.VStr? && Trimmed(es[i].1.s)
  }

  /** Filling flat data appends one leaf per entry, in order. */
  lemma {:induction false} FillFlat(parent: Node, es: Dict<Value>)
    requires FlatData(es)
    ensures FillEntries(parent, es) == Ok(parent.(children := parent.children + Leaves(es)))
    decreases |es|
  {
    if |es| > 0 {
      var init := es[..|es| - 1];
      var e := es[|es| - 1];
      assert FlatData(init) by {
        assert forall i :: 0 <= i < |init| ==> init[i] == es[i];
      }
      FillFlat(parent, init);
      var p := parent.(children := parent.children + Leaves(init));
      assert FillEntries(parent, init) == Ok(p);
      assert Leaves(es) == Leaves(init) + [Leaf(e.0, e.1.s)];
      assert Fill(Element(e.0), e.1) == Ok(Leaf(e.0, e.1.s));
      assert FillEntry(p, e.0, e.1) == Ok(p.(children := p.children + [Leaf(e.0, e.1.s)]));
      assert p.children + [Leaf(e.0, e.1.s)] == parent.children + Leaves(es);
    } else {
      assert parent.children + [] == parent.children;
    }
  }

  function Leaf(tag: string, text: string): Node {
    Node(tag, [], Some(text), [])
  }

  function Leaves(es: Dict<Value>): (r: seq<Node>)
    requires forall i :: 0 <= i < |es| ==> es[i].1.VStr?
    ensures |r| == |es|
    ensures forall i :: 0 <= i < |es| ==> r[i] == Leaf(es[i].0, es[i].1.s)
  {
    if |es| == 0 then [] else Leaves(es[..|es| - 1]) + [Leaf(es[|es| - 1].0, es[|es| - 1].1.s)]
  }

  /** Converting flat data to an element and back gives the same data. */
  lemma FlatRoundTrip(es: Dict<Value>, rootTag: string)
    requires |es| > 0 && FlatData(es)
    ensures DictToElement(VDict(es), rootTag).Ok?
    ensures ElementDict(DictToElement(VDict(es), rootTag).value) == VDict(es)
  {
    FlatElement(es, rootTag);
    FoldLeaves(es);
    BareElementDict(rootTag, Leaves(es), es);
  }

  /** Flat data becomes an element holding just its leaves. */
  lemma FlatElement(es: Dict<Value>, rootTag: string)
    requires FlatData(es)
    ensures DictToElement(VDict(es), rootTag) == Ok(Node(rootTag, [], None, Leaves(es)))
  {
    FillFlat(Element(rootTag), es);
    assert [] + Leaves(es) == Leaves(es);
  }

  /** An element with children only reads back as the dict its children fold to, unless that is a lone "#text". */
  lemma BareElementDict(tag: string, cs: seq<Node>, es: Dict<Value>)
    requires ChildFold([], cs) == es && |es| > 0 && es[0].0 != "#text"
    ensures ElementDict(Node(tag, [], None, cs)) == VDict(es)
  {
    assert ElementEntries(Node(tag, [], None, cs)) == es;
    if |es| == 1 {
      assert Keys(es) == [es[0].0];
    }
  }

  /** Folding the leaves of flat data rebuilds the data. */
  lemma {:induction false} FoldLeaves(es: Dict<Value>)
    requires FlatData(es)
    ensures ChildFold([], Leaves(es)) == es
    decreases |es|
  {
    if |es| > 0 {
      var init := es[..|es| - 1];
      var e := es[|es| - 1];
      assert FlatData(init) by {
        assert forall i :: 0 <= i < |init| ==> init[i] == es[i];
      }
      FoldLeaves(init);
      var ls := Leaves(es);
      assert ls[..|ls| - 1] == Leaves(init);
      var leaf := Leaf(e.0, e.1.s);
      assert ls[|ls| - 1] == leaf;
      StripTrimmed(e.1.s);
      assert ElementDict(leaf) == e.1 by {
        LeafDict(e.0, Some(e.1.s));
      }
      NotKeyOfInit(es);
      SetAbsent(init, e.0, e.1);
      assert init + [e] == es;
    }
  }

  lemma NotKeyOfInit(es: Dict<Value>)
    requires |es| > 0 && UniqueKeys(es)
    ensures !HasKey(es[..|es| - 1], es[|es| - 1].0)
  {
    var init := es[..|es| - 1];
    forall i | 0 <= i < |init| ensures Keys(init)[i] != es[|es| - 1].0 {
      assert Keys(init)[i] == es[i].0;
    }
  }

  // ---------------------------------------------------------------------------
  // Lookups

  /** `find_element_text`: the stripped text of the first match when it has non-empty text, else `default`. */
  function FindElementText(element: Node, path: seq<XmlBody.PathStep>, default: Option<string>): (r: Option<string>)
    ensures var m := XmlBody.SelectPath([element], path);
            |m| == 0 || m[0].text.None? || m[0].text == Some("") ==> r == default
    ensures var m := XmlBody.SelectPath([element], path);
            r != default ==> |m| > 0 && m[0].text.Some? && r == Some(Strip(m[0].text.value))
  {
    var m := XmlBody.SelectPath([element], path);
    if |m| > 0 && m[0].text.Some? && |m[0].text.value| > 0 then Some(Strip(m[0].text.value)) else default
  }

  /** Whitespace-only text is found as "", not replaced by the default. */
  lemma BlankTextIsEmpty(element: Node, path: seq<XmlBody.PathStep>, default: Option<string>)
    requires var m := XmlBody.SelectPath([element], path);
             |m| > 0 && m[0].text.Some? && |m[0].text.value| > 0 && AllSpace(m[0].text.value)
    ensures FindElementText(element, path, default) == Some("")
  {
    var t := XmlBody.SelectPath([element], path)[0].text.value;
    StripEmptyIff(t);
  }

  /** `extract_soap_body`: the first child of the first SOAP 1.1, then SOAP 1.2, Body below the element that has one. */
  function ExtractSoapBody(element: Node): (r: Option<Node>)
    ensures r.Some? ==> exists ns :: ns in [SoapEnvelope11, SoapEnvelope12] &&
                          FindDescendant(element, Qualified(ns, "Body")).Some? &&
                          |FindDescendant(element, Qualified(ns, "Body")).value.children| > 0 &&
                          r.value == FindDescendant(element, Qualified(ns, "Body")).value.children[0]
  {
    var b11 := FindDescendant(element, Qualified(SoapEnvelope11, "Body"));
    var b12 := FindDescendant(element, Qualified(SoapEnvelope12, "Body"));
    if b11.Some? && |b11.value.children| > 0 then Some(b11.value.children[0])
    else if b12.Some? && |b12.value.children| > 0 then Some(b12.value.children[0])
    else None
  }

  const SoapEnvelope11: string := "http://schemas.xmlsoap.org/soap/envelope/"
  const SoapEnvelope12: string := "http://www.w3.org/2003/05/soap-envelope"

  /** The loop of `extract_soap_body` over the two namespaces. */
  method ExtractSoapBodyLoop(element: Node) returns (r: Option<Node>)
    ensures r == ExtractSoapBody(element)
  {
    var namespaces := [SoapEnvelope11, SoapEnvelope12];
    var k := 0;
    while k < |namespaces|
      invariant 0 <= k <= 2
      invariant forall j :: 0 <= j < k ==>
                  var b := FindDescendant(element, Qualified(namespaces[j], "Body"));
                  !(b.Some? && |b.value.children| > 0)
    {
      var body := FindDescendant(element, Qualified(namespaces[k], "Body"));
      if body.Some? {
        if |body.value.children| > 0 {
          return Some(body.value.children[0]);
        }
      }
      k := k + 1;
    }
    return None;
  }

  /** A SOAP 1.1 Body with content wins over any SOAP 1.2 Body; an envelope whose Bodies are empty yields nothing. */
  lemma SoapBodyOrder(element: Node)
    ensures var b11 := FindDescendant(element, Qualified(SoapEnvelope11, "Body"));
            b11.Some? && |b11.value.children| > 0 ==> ExtractSoapBody(element) == Some(b11.value.children[0])
    ensures var b11 := FindDescendant(element, Qualified(SoapEnvelope11, "Body"));
            var b12 := FindDescendant(element, Qualified(SoapEnvelope12, "Body"));
            (b11.None? || |b11.value.children| == 0) && (b12.None? || |b12.value.children| == 0) ==>
              ExtractSoapBody(element).None?
  {
  }
}
