/**
 * The validated XML body value object: construction, dict <-> tree conversion,
 * element lookup, SOAP envelope sniffing, body extraction and minify-based equality.
 */
module XmlBody {
  import opened Wrappers
  import opened Strings
  import opened Dicts
  import opened Values
  import opened XmlTree

  /** A body whose text the parser accepts; only `New` produces one. */
  datatype XmlBody = XmlBody(value: string)

  /** The constructor's checks: the text must be non-empty and parse. */
  function New(value: string, parse: Parser): (r: Result<XmlBody>)
    ensures r.Ok? <==> |value| > 0 && parse(value).Parsed?
    ensures r.Ok? ==> r.value.value == value
    ensures |value| == 0 ==> r == Fail(ValueError("XML Body darf nicht leer sein"))
    ensures |value| > 0 && parse(value).ParseError? ==>
              r == Fail(ValueError("Ungültiges XML: " + parse(value).detail))
  {
    if |value| == 0 then Fail(ValueError("XML Body darf nicht leer sein"))
    else match parse(value)
      case ParseError(detail) => Fail(ValueError("Ungültiges XML: " + detail))
      case Parsed(_) => Ok(XmlBody(value))
  }

  /** `from_string`: strips, then validates. */
  function FromString(s: string, parse: Parser): (r: Result<XmlBody>)
    ensures r.Ok? <==> |Strip(s)| > 0 && parse(Strip(s)).Parsed?
    ensures r.Ok? ==> r.value.value == Strip(s)
  {
    New(Strip(s), parse)
  }

  // ---------------------------------------------------------------------------
  // from_dict: the tree that `_dict_to_xml` builds

  /** The elements `_dict_to_xml(data, parent)` appends to `parent`, in key order. */
  function DictChildren(data: Dict<Value>): seq<Node>
    decreases data, 0
  {
    if |data| == 0 then []
    else
      var e := data[|data| - 1];
      assert e in data && e.1 < e;
      DictChildren(data[..|data| - 1]) + EntryNodes(e.0, e.1)
  }

  /** The elements one entry contributes: a nested element, one element per list item, or a text leaf. */
  function EntryNodes(key: string, v: Value): seq<Node>
    decreases v, 1
  {
    match v
    case VDict(entries) => [Node(key, [], None, DictChildren(entries))]
    case VList(items) => ListNodes(key, items)
    case _ => [Node(key, [], Some(PyStr(v)), [])]
  }

  function ListNodes(key: string, items: seq<Value>): (r: seq<Node>)
    ensures |r| == |items|
    decreases items, 1
  {
    if |items| == 0 then []
    else
      var item := items[|items| - 1];
      assert item in items;
      ListNodes(key, items[..|items| - 1]) + [ItemNode(key, item)]
  }

  /** One list item: a dict item nests, any other item becomes `str(item)` text. */
  function ItemNode(key: string, item: Value): Node
    decreases item, 1
  {
    match item
    case VDict(entries) => Node(key, [], None, DictChildren(entries))
    case _ => Node(key, [], Some(PyStr(item)), [])
  }

  /** The root `from_dict(data, root_tag)` serialises. */
  function DictTree(rootTag: string, data: Dict<Value>): Node {
    Node(rootTag, [], None, DictChildren(data))
  }

  /** `_dict_to_xml`: appends the elements for `data` to `parent`, entry by entry. */
  method DictToXml(data: Dict<Value>, parent: Node) returns (r: Node)
    ensures r == parent.(children := parent.children + DictChildren(data))
    decreases data, 1
  {
    r := parent;
    var i := 0;
    while i < |data|
      invariant 0 <= i <= |data|
      invariant r == parent.(children := parent.children + DictChildren(data[..i]))
    {
      var key := data[i].0;
      var value := data[i].1;
      assert data[i] in data && value < data[i];
      assert data[..i + 1][..i] == data[..i];
      assert DictChildren(data[..i + 1]) == DictChildren(data[..i]) + EntryNodes(key, value);
      r := AppendEntry(key, value, r);
      i := i + 1;
    }
    assert data[..i] == data;
  }

  /** The body of the `_dict_to_xml` loop for one entry: appends its elements to `parent`. */
  method AppendEntry(key: string, value: Value, parent: Node) returns (r: Node)
    ensures r == parent.(children := parent.children + EntryNodes(key, value))
    decreases value, 0
  {
    match value {
      case VDict(entries) =>
        var child := DictToXml(entries, Element(key));
        assert [] + DictChildren(entries) == DictChildren(entries);
        r := parent.(children := parent.children + [child]);
      case VList(items) =>
        r := parent;
        var j := 0;
        while j < |items|
          invariant 0 <= j <= |items|
          invariant r == parent.(children := parent.children + ListNodes(key, items[..j]))
        {
          var item := items[j];
          assert item in items;
          assert items[..j + 1][..j] == items[..j];
          var child := Element(key);
          match item {
            case VDict(entries) =>
              child := DictToXml(entries, child);
              assert [] + DictChildren(entries) == DictChildren(entries);
            case _ =>
              child := child.(text := Some(PyStr(item)));
          }
          assert child == ItemNode(key, item);
          r := r.(children := r.children + [child]);
          j := j + 1;
        }
        assert items[..j] == items;
      case _ =>
        var child := Element(key).(text := Some(PyStr(value)));
        r := parent.(children := parent.children + [child]);
    }
  }

  /** `from_dict(data, root_tag)`: builds the tree, serialises it and validates the text. */
  method FromDict(data: Dict<Value>, rootTag: string, parse: Parser, ser: Serializer) returns (r: Result<XmlBody>)
    ensures r == New(ser(DictTree(rootTag, data)), parse)
  {
    var root := DictToXml(data, Element(rootTag));
    assert root == DictTree(rootTag, data);
    r := New(ser(root), parse);
  }

  // ---------------------------------------------------------------------------
  // to_dict: the value `_element_to_dict` computes

  /** `element.attrib` as a dict value. */
  function AttrsValue(attrs: Dict<string>): (r: Dict<Value>)
    ensures |r| == |attrs|
    ensures forall i :: 0 <= i < |attrs| ==> r[i] == (attrs[i].0, VStr(attrs[i].1))
  {
    if |attrs| == 0 then [] else [(attrs[0].0, VStr(attrs[0].1))] + AttrsValue(attrs[1..])
  }

  /** One child's contribution to `child_dict`: a second occurrence of a tag turns the entry into a list. */
  function AddChild(d: Dict<Value>, tag: string, v: Value): Dict<Value> {
    match Get(d, tag)
    case None => Set(d, tag, v)
    case Some(prev) => Set(d, tag, VList((if prev.VList? then prev.items else [prev]) + [v]))
  }

  /** `child_dict` after folding the children `cs` into `acc`, in document order. */
  function Fold(acc: Dict<Value>, cs: seq<Node>): Dict<Value>
    decreases cs, 0
  {
    if |cs| == 0 then acc
    else
      var c := cs[|cs| - 1];
      assert c in cs;
      AddChild(Fold(acc, cs[..|cs| - 1]), c.tag, ElementValue(c))
  }

  /** `_element_to_dict(element)`: attributes, then children, then text; never a list. */
  function ElementValue(n: Node): (r: Value)
    ensures !r.VList?
    decreases n, 1
  {
    var withAttrs: Dict<Value> := if |n.attrs| > 0 then [("@attributes", VDict(AttrsValue(n.attrs)))] else [];
    var result := if |n.children| > 0 then Update(withAttrs, Fold([], n.children)) else withAttrs;
    if n.text.Some? && |Strip(n.text.value)| > 0 then
      if |result| > 0 then VDict(Set(result, "#text", VStr(Strip(n.text.value))))
      else VStr(Strip(n.text.value))
    else if |result| > 0 then VDict(result)
    else VNone
  }

  /** `_element_to_dict`, computed child by child as the source does. */
  method ElementToDict(n: Node) returns (r: Value)
    ensures r == ElementValue(n)
    decreases n
  {
    var result: Dict<Value> := [];
    if |n.attrs| > 0 {
      result := [("@attributes", VDict(AttrsValue(n.attrs)))];
    }
    if |n.children| > 0 {
      var childDict: Dict<Value> := [];
      var i := 0;
      while i < |n.children|
        invariant 0 <= i <= |n.children|
        invariant childDict == Fold([], n.children[..i])
      {
        var child := n.children[i];
        assert child in n.children;
        var childData := ElementToDict(child);
        assert n.children[..i + 1][..i] == n.children[..i];
        match Get(childDict, child.tag) {
          case Some(prev) =>
            var items := if prev.VList? then prev.items else [prev];
            childDict := Set(childDict, child.tag, VList(items + [childData]));
          case None =>
            childDict := Set(childDict, child.tag, childData);
        }
        i := i + 1;
      }
      assert n.children[..i] == n.children;
      result := Update(result, childDict);
    }
    if n.text.Some? && |Strip(n.text.value)| > 0 {
      if |result| > 0 {
        result := Set(result, "#text", VStr(Strip(n.text.value)));
      } else {
        return VStr(Strip(n.text.value));
      }
    }
    r := if |result| > 0 then VDict(result) else VNone;
  }

  /** `to_dict`: the root's value under the root's tag. */
  method ToDict(b: XmlBody, parse: Parser) returns (r: Value)
    requires parse(b.value).Parsed?
    ensures r == VDict([(parse(b.value).root.tag, ElementValue(parse(b.value).root))])
  {
    var root := parse(b.value).root;
    var v := ElementToDict(root);
    r := VDict([(root.tag, v)]);
  }

  /** The values of the children tagged `tag`, in document order. */
  function TaggedValues(cs: seq<Node>, tag: string): (r: seq<Value>)
    ensures forall i :: 0 <= i < |r| ==> !r[i].VList?
    decreases cs
  {
    if |cs| == 0 then []
    else
      var c := cs[|cs| - 1];
      TaggedValues(cs[..|cs| - 1], tag) + (if c.tag == tag then [ElementValue(c)] else [])
  }

  /** Repeated child tags collapse into one list holding every occurrence in document order. */
  lemma {:induction false} FoldGet(cs: seq<Node>, tag: string)
    ensures var vs := TaggedValues(cs, tag);
            Get(Fold([], cs), tag) ==
              if |vs| == 0 then None else if |vs| == 1 then Some(vs[0]) else Some(VList(vs))
    decreases cs
  {
    if |cs| > 0 {
      var init := cs[..|cs| - 1];
      var c := cs[|cs| - 1];
      FoldGet(init, tag);
      var d := Fold([], init);
      var v := ElementValue(c);
      assert Fold([], cs) == AddChild(d, c.tag, v);
      if c.tag == tag {
        assert TaggedValues(cs, tag) == TaggedValues(init, tag) + [v];
        AddChildSame(d, tag, v);
        var vs := TaggedValues(init, tag);
        if |vs| == 1 {
          assert [vs[0]] + [v] == vs + [v];
        }
      } else {
        assert TaggedValues(cs, tag) == TaggedValues(init, tag);
        AddChildOther(d, c.tag, v, tag);
      }
    }
  }

  lemma AddChildSame(d: Dict<Value>, tag: string, v: Value)
    ensures Get(AddChild(d, tag, v), tag) ==
              match Get(d, tag)
              case None => Some(v)
              case Some(prev) => Some(VList((if prev.VList? then prev.items else [prev]) + [v]))
  {
    match Get(d, tag) {
      case None => GetSetSame(d, tag, v);
      case Some(prev) => GetSetSame(d, tag, VList((if prev.VList? then prev.items else [prev]) + [v]));
    }
  }

  lemma AddChildOther(d: Dict<Value>, tag: string, v: Value, other: string)
    requires other != tag
    ensures Get(AddChild(d, tag, v), other) == Get(d, other)
  {
    match Get(d, tag) {
      case None => GetSetOther(d, tag, v, other);
      case Some(prev) => GetSetOther(d, tag, VList((if prev.VList? then prev.items else [prev]) + [v]), other);
    }
  }

  /** A leaf with non-blank text yields its stripped text; a leaf without attributes or text yields None. */
  lemma LeafValue(tag: string, text: Option<string>)
    ensures var v := ElementValue(Node(tag, [], text, []));
            if text.Some? && |Strip(text.value)| > 0 then v == VStr(Strip(text.value)) else v == VNone
  {
  }

  // ---------------------------------------------------------------------------
  // The dict -> XML -> dict round trip for string-only data

  /** Data that `to_dict` recovers exactly: trimmed non-empty strings, non-empty dicts, lists of two or more. */
  predicate SimpleDict(d: Dict<Value>)
    decreases d, 1
  {
    UniqueKeys(d) && SimpleEntries(d)
  }

  predicate SimpleEntries(d: Dict<Value>)
    decreases d, 0
  {
    if |d| == 0 then true
    else
      var e := d[|d| - 1];
      assert e in d && e.1 < e;
      SimpleEntries(d[..|d| - 1]) && SimpleValue(e.1)
  }

  predicate SimpleValue(v: Value)
    decreases v, 2
  {
    match v
    case VList(items) => |items| >= 2 && SimpleItems(items)
    case _ => SimpleItem(v)
  }

  predicate SimpleItems(items: seq<Value>)
    decreases items, 0
  {
    if |items| == 0 then true
    else
      var item := items[|items| - 1];
      assert item in items;
      SimpleItems(items[..|items| - 1]) && SimpleItem(item)
  }

  predicate SimpleItem(v: Value)
    decreases v, 1
  {
    match v
    case VStr(s) => Trimmed(s)
    case VDict(entries) => |entries| > 0 && SimpleDict(entries)
    case _ => false
  }

  /** `Fold` over a concatenation folds the parts one after the other. */
  lemma {:induction false} FoldAppend(acc: Dict<Value>, xs: seq<Node>, ys: seq<Node>)
    ensures Fold(acc, xs + ys) == Fold(Fold(acc, xs), ys)
    decreases ys
  {
    if |ys| == 0 {
      assert xs + ys == xs;
    } else {
      assert (xs + ys)[..|xs + ys| - 1] == xs + ys[..|ys| - 1];
      FoldAppend(acc, xs, ys[..|ys| - 1]);
    }
  }

  /** Folding a single child is one `AddChild`. */
  lemma FoldOne(acc: Dict<Value>, n: Node)
    ensures Fold(acc, [n]) == AddChild(acc, n.tag, ElementValue(n))
  {
    assert [n][..0] == [];
  }

  lemma {:induction false} UniqueInit(d: Dict<Value>)
    requires |d| > 0 && UniqueKeys(d)
    ensures UniqueKeys(d[..|d| - 1])
    ensures !HasKey(d[..|d| - 1], d[|d| - 1].0)
  {
    var init := d[..|d| - 1];
    forall i | 0 <= i < |init| ensures Keys(init)[i] != d[|d| - 1].0 {
      assert Keys(init)[i] == d[i].0;
    }
  }

  lemma {:induction false} KeysConcat(a: Dict<Value>, b: Dict<Value>)
    ensures Keys(a + b) == Keys(a) + Keys(b)
  {
    assert forall i :: 0 <= i < |a + b| ==> Keys(a + b)[i] == (Keys(a) + Keys(b))[i];
  }

  /** The elements built for simple data fold back into the same entries, appended to `acc`. */
  lemma {:induction false} FoldDictChildren(acc: Dict<Value>, d: Dict<Value>)
    requires SimpleDict(d)
    requires forall i :: 0 <= i < |d| ==> !HasKey(acc, d[i].0)
    ensures Fold(acc, DictChildren(d)) == acc + d
    decreases d, 0
  {
    if |d| == 0 {
      assert acc + d == acc;
    } else {
      var init := d[..|d| - 1];
      var e := d[|d| - 1];
      assert Fold(acc, DictChildren(init)) == acc + init by {
        SimpleInit(d);
        FreshInit(acc, d, init);
        FoldDictChildren(acc, init);
      }
      assert Fold(acc + init, EntryNodes(e.0, e.1)) == acc + init + [e] by {
        SimpleInit(d);
        FreshLast(acc, d);
        assert e in d && e.1 < e;
        FoldEntry(acc + init, e.0, e.1);
      }
      FoldDictStep(acc, init, e);
      assert init + [e] == d;
    }
  }

  /** The entries of simple data before its last are simple, and the last holds a simple value under a new key. */
  lemma SimpleInit(d: Dict<Value>)
    requires |d| > 0 && SimpleDict(d)
    ensures SimpleDict(d[..|d| - 1]) && SimpleValue(d[|d| - 1].1)
    ensures !HasKey(d[..|d| - 1], d[|d| - 1].0)
  {
    var e := d[|d| - 1];
    assert e in d && e.1 < e;
    assert SimpleEntries(d[..|d| - 1]) && SimpleValue(e.1);
    UniqueInit(d);
  }

  /** The keys of `d` before its last are not in `acc` either. */
  lemma FreshInit(acc: Dict<Value>, d: Dict<Value>, init: Dict<Value>)
    requires |d| > 0 && init == d[..|d| - 1] && forall i :: 0 <= i < |d| ==> !HasKey(acc, d[i].0)
    ensures forall i :: 0 <= i < |init| ==> !HasKey(acc, init[i].0)
  {
    forall i | 0 <= i < |init| ensures !HasKey(acc, init[i].0) {
      assert init[i] == d[i];
    }
  }

  /** The last key of `d` is new after `acc` and the entries before it. */
  lemma FreshLast(acc: Dict<Value>, d: Dict<Value>)
    requires |d| > 0 && forall i :: 0 <= i < |d| ==> !HasKey(acc, d[i].0)
    requires !HasKey(d[..|d| - 1], d[|d| - 1].0)
    ensures !HasKey(acc + d[..|d| - 1], d[|d| - 1].0)
  {
    assert !HasKey(acc, d[|d| - 1].0);
    KeysConcat(acc, d[..|d| - 1]);
  }

  /** The fold of the last entry's elements after those of the others. */
  lemma FoldDictStep(acc: Dict<Value>, init: Dict<Value>, e: (string, Value))
    requires Fold(acc, DictChildren(init)) == acc + init
    requires Fold(acc + init, EntryNodes(e.0, e.1)) == acc + init + [e]
    ensures Fold(acc, DictChildren(init + [e])) == acc + (init + [e])
  {
    DictChildrenSnoc(init, e);
    FoldAppend(acc, DictChildren(init), EntryNodes(e.0, e.1));
    EntriesAssoc(acc, init, [e]);
  }

  /** Laying three runs of entries end to end does not depend on grouping. */
  lemma EntriesAssoc(a: Dict<Value>, b: Dict<Value>, c: Dict<Value>)
    ensures a + b + c == a + (b + c)
  {
  }

  /** The elements of a dict with one more entry: those of the others, then the new entry's. */
  lemma DictChildrenSnoc(init: Dict<Value>, e: (string, Value))
    ensures DictChildren(init + [e]) == DictChildren(init) + EntryNodes(e.0, e.1)
  {
    var d := init + [e];
    assert d[..|d| - 1] == init && d[|d| - 1] == e;
  }

  /** One simple entry folds back into exactly that entry. */
  lemma {:induction false} FoldEntry(acc: Dict<Value>, k: string, v: Value)
    requires SimpleValue(v)
    requires !HasKey(acc, k)
    ensures Fold(acc, EntryNodes(k, v)) == acc + [(k, v)]
    decreases v, 2
  {
    if v.VList? {
      FoldList(acc, k, v.items);
    } else {
      assert SimpleItem(v);
      var n := ItemNode(k, v);
      assert EntryNodes(k, v) == [n];
      FoldItem(acc, k, v);
      assert Fold(acc, [n]) == acc + [(k, v)];
    }
  }

  /** One simple item's element folds into a new entry holding the item. */
  lemma {:induction false} FoldItem(acc: Dict<Value>, k: string, item: Value)
    requires SimpleItem(item)
    requires !HasKey(acc, k)
    ensures Fold(acc, [ItemNode(k, item)]) == acc + [(k, item)]
    decreases item, 1
  {
    FoldOne(acc, ItemNode(k, item));
    ItemValue(k, item);
    SetAbsent(acc, k, item);
  }

  /** Two or more simple items fold back into one list entry. */
  lemma {:induction false} FoldList(acc: Dict<Value>, k: string, items: seq<Value>)
    requires |items| >= 2 && SimpleItems(items)
    requires !HasKey(acc, k)
    ensures Fold(acc, ListNodes(k, items)) == acc + [(k, VList(items))]
    decreases items, 0
  {
    var init := items[..|items| - 1];
    var last := items[|items| - 1];
    assert init + [last] == items;
    assert SimpleItems(init) && SimpleItem(last);
    assert ElementValue(ItemNode(k, last)) == last by {
      assert last in items;
      ItemValue(k, last);
    }
    if |init| == 1 {
      var first := init[0];
      assert SimpleItem(first) by {
        assert SimpleItems(init[..0]) && SimpleItem(init[0]);
      }
      assert Fold(acc, ListNodes(k, init)) == acc + [(k, first)] by {
        assert first in items;
        FoldItem(acc, k, first);
        FoldSingle(acc, k, init, first);
      }
      FoldListStep(acc, k, init, first, last);
      PairOfSingle(init, last, items);
    } else {
      assert Fold(acc, ListNodes(k, init)) == acc + [(k, VList(init))] by {
        FoldList(acc, k, init);
      }
      FoldListStep(acc, k, init, VList(init), last);
    }
  }

  /** The elements of a one-item list are that item's element. */
  lemma FoldSingle(acc: Dict<Value>, k: string, init: seq<Value>, first: Value)
    requires init == [first]
    requires Fold(acc, [ItemNode(k, first)]) == acc + [(k, first)]
    ensures Fold(acc, ListNodes(k, init)) == acc + [(k, first)]
  {
    assert init[..0] == [];
    assert ListNodes(k, init) == ListNodes(k, init[..0]) + [ItemNode(k, first)];
  }

  /** A one-item prefix and a last item make a pair. */
  lemma PairOfSingle(init: seq<Value>, last: Value, items: seq<Value>)
    requires |init| == 1 && init + [last] == items
    ensures [init[0]] + [last] == items
  {
    assert init == [init[0]];
  }

  /** One more item after a folded prefix extends the prefix's entry into a list. */
  lemma FoldListStep(acc: Dict<Value>, k: string, init: seq<Value>, prev: Value, last: Value)
    requires ElementValue(ItemNode(k, last)) == last && !HasKey(acc, k)
    requires Fold(acc, ListNodes(k, init)) == acc + [(k, prev)]
    ensures Fold(acc, ListNodes(k, init + [last]))
            == acc + [(k, VList((if prev.VList? then prev.items else [prev]) + [last]))]
  {
    var n := ItemNode(k, last);
    var xs := init + [last];
    assert xs[..|xs| - 1] == init;
    assert ListNodes(k, xs) == ListNodes(k, init) + [n];
    FoldAppend(acc, ListNodes(k, init), [n]);
    FoldOne(acc + [(k, prev)], n);
    AddChildLast(acc, k, prev, last);
  }

  /** Adding a child whose tag is held only by the last entry extends that entry into a list. */
  lemma AddChildLast(acc: Dict<Value>, k: string, prev: Value, v: Value)
    requires !HasKey(acc, k)
    ensures AddChild(acc + [(k, prev)], k, v)
            == acc + [(k, VList((if prev.VList? then prev.items else [prev]) + [v]))]
  {
    LastEntry(acc, k, prev, VList((if prev.VList? then prev.items else [prev]) + [v]));
  }

  /** A simple item's element converts back to the item. */
  lemma {:induction false} ItemValue(k: string, item: Value)
    requires SimpleItem(item)
    ensures ElementValue(ItemNode(k, item)) == item
    decreases item, 0
  {
    if item.VStr? {
      LeafItemValue(k, item);
    } else {
      assert item.VDict?;
      var entries := item.entries;
      assert |entries| > 0 && SimpleDict(entries);
      assert ItemNode(k, item) == Node(k, [], None, DictChildren(entries));
      FoldDictChildren([], entries);
      assert [] + entries == entries;
      DictChildrenNonEmpty(entries);
      NestedValue(k, DictChildren(entries), entries);
    }
  }

  /** A trimmed string item's element converts back to the string. */
  lemma LeafItemValue(k: string, item: Value)
    requires item.VStr? && Trimmed(item.s)
    ensures ElementValue(ItemNode(k, item)) == item
  {
    var s := item.s;
    assert ItemNode(k, item) == Node(k, [], Some(s), []);
    StripTrimmed(s);
    LeafValue(k, Some(s));
  }

  /** An element without attributes or text whose children fold to a non-empty dict yields that dict. */
  lemma NestedValue(k: string, cs: seq<Node>, e: Dict<Value>)
    requires |cs| > 0 && |e| > 0 && UniqueKeys(e) && Fold([], cs) == e
    ensures ElementValue(Node(k, [], None, cs)) == VDict(e)
  {
    UpdateFresh([], e);
    assert [] + e == e;
  }

  lemma DictChildrenNonEmpty(d: Dict<Value>)
    requires |d| > 0 && SimpleEntries(d)
    ensures |DictChildren(d)| > 0
  {
    var e := d[|d| - 1];
    assert e in d && e.1 < e;
    assert SimpleValue(e.1);
    assert DictChildren(d) == DictChildren(d[..|d| - 1]) + EntryNodes(e.0, e.1);
    if e.1.VList? {
      assert |ListNodes(e.0, e.1.items)| >= 2;
    }
  }

  /**
   * `to_dict(from_dict(d, root))` gives back `{root: d}` for simple non-empty data,
   * given a serialiser and parser that round-trip the built tree.
   */
  lemma DictRoundTrip(d: Dict<Value>, rootTag: string, parse: Parser, ser: Serializer)
    requires |d| > 0 && SimpleDict(d)
    requires |ser(DictTree(rootTag, d))| > 0
    requires parse(ser(DictTree(rootTag, d))) == Parsed(DictTree(rootTag, d))
    ensures New(ser(DictTree(rootTag, d)), parse).Ok?
    ensures var root := parse(ser(DictTree(rootTag, d))).root;
            VDict([(root.tag, ElementValue(root))]) == VDict([(rootTag, VDict(d))])
  {
    var item := VDict(d);
    assert SimpleItem(item);
    ItemValue(rootTag, item);
    assert ItemNode(rootTag, item) == DictTree(rootTag, d);
  }

  // ---------------------------------------------------------------------------
  // find_element: an ElementTree path of child and descendant steps

  /** One step of an ElementTree path: `tag` (a child) or `.//tag` (any proper descendant). */
  datatype PathStep = ChildStep(tag: string) | DescendantStep(tag: string)

  /** The nodes of `cs` tagged `tag`, in order. */
  function Tagged(cs: seq<Node>, tag: string): (r: seq<Node>)
    ensures forall i :: 0 <= i < |r| ==> r[i] in cs && r[i].tag == tag
  {
    if |cs| == 0 then []
    else (if cs[0].tag == tag then [cs[0]] else []) + Tagged(cs[1..], tag)
  }

  /** The matches of one step from each node of `ns`, in document order. */
  function StepAll(ns: seq<Node>, s: PathStep): seq<Node> {
    if |ns| == 0 then []
    else
      var scope := match s case ChildStep(_) => ns[0].children case DescendantStep(_) => Descendants(ns[0].children);
      Tagged(scope, s.tag) + StepAll(ns[1..], s)
  }

  function SelectPath(ns: seq<Node>, steps: seq<PathStep>): seq<Node>
    decreases |steps|
  {
    if |steps| == 0 then ns else SelectPath(StepAll(ns, steps[0]), steps[1..])
  }

  /** `find_element(path)`: the text of the first match; None when nothing matches or parsing fails. */
  function FindElement(b: XmlBody, steps: seq<PathStep>, parse: Parser): Option<string> {
    match parse(b.value)
    case ParseError(_) => None
    case Parsed(root) =>
      var m := SelectPath([root], steps);
      if |m| == 0 then None else m[0].text
  }

  /** The first tagged node is the one `find` returns. */
  lemma {:induction false} TaggedFirst(cs: seq<Node>, tag: string)
    ensures |Tagged(cs, tag)| > 0 <==> FindFirst(cs, tag).Some?
    ensures |Tagged(cs, tag)| > 0 ==> Tagged(cs, tag)[0] == FindFirst(cs, tag).value
  {
    if |cs| > 0 && cs[0].tag != tag {
      TaggedFirst(cs[1..], tag);
    }
  }

  /** A one-step path is ElementTree's `find(tag)` or `find('.//' + tag)`. */
  lemma FindElementOneStep(b: XmlBody, s: PathStep, parse: Parser)
    requires parse(b.value).Parsed?
    ensures var root := parse(b.value).root;
            var hit := match s case ChildStep(t) => FindChild(root, t) case DescendantStep(t) => FindDescendant(root, t);
            FindElement(b, [s], parse) == if hit.Some? then hit.value.text else None
  {
    var root := parse(b.value).root;
    var scope := match s case ChildStep(_) => root.children case DescendantStep(_) => Descendants(root.children);
    assert StepAll([root], s) == Tagged(scope, s.tag) + StepAll([root][1..], s);
    assert [root][1..] == [];
    assert SelectPath([root], [s]) == SelectPath(StepAll([root], s), []);
    TaggedFirst(scope, s.tag);
  }

  // ---------------------------------------------------------------------------
  // SOAP envelope sniffing and body extraction

  const Soap11Namespace: string := "http://schemas.xmlsoap.org/soap/envelope/"
  const Soap12Namespace: string := "http://www.w3.org/2003/05/soap-envelope"

  /** `is_soap_envelope`: one of five marker substrings occurs (case-sensitive). */
  predicate IsSoapEnvelope(value: string) {
    Contains(value, "<soap:Envelope") || Contains(value, "<SOAP-ENV:Envelope")
    || Contains(value, "<soapenv:Envelope") || Contains(value, Soap11Namespace)
    || Contains(value, Soap12Namespace)
  }

  /** The four Body lookups in the order the `or` chain tries them. */
  function BodyCandidates(root: Node): seq<Option<Node>> {
    [FindChild(root, Qualified(Soap11Namespace, "Body")), FindChild(root, Qualified(Soap12Namespace, "Body")),
     FindDescendant(root, Qualified(Soap11Namespace, "Body")), FindDescendant(root, Qualified(Soap12Namespace, "Body"))]
  }

  /** The first candidate that is an element with children (an element without children is falsy). */
  function FirstNonEmpty(cands: seq<Option<Node>>): (r: Option<Node>)
    ensures r.Some? ==> |r.value.children| > 0 && Some(r.value) in cands
    ensures r.Some? <==> exists i :: 0 <= i < |cands| && cands[i].Some? && |cands[i].value.children| > 0
  {
    if |cands| == 0 then None
    else if cands[0].Some? && |cands[0].value.children| > 0 then cands[0]
    else
      var r := FirstNonEmpty(cands[1..]);
      assert forall i :: 1 <= i < |cands| ==> cands[i] == cands[1..][i - 1];
      r
  }

  /** `extract_body_content`: the first child of the first non-empty Body, re-validated. */
  function ExtractBodyContent(b: XmlBody, parse: Parser, ser: Serializer): (r: Option<XmlBody>)
    ensures !IsSoapEnvelope(b.value) ==> r.None?
    ensures r.Some? ==> parse(b.value).Parsed?
                        && FirstNonEmpty(BodyCandidates(parse(b.value).root)).Some?
                        && r.value.value == ser(FirstNonEmpty(BodyCandidates(parse(b.value).root)).value.children[0])
                        && New(r.value.value, parse) == Ok(r.value)
  {
    if !IsSoapEnvelope(b.value) then None
    else match parse(b.value)
      case ParseError(_) => None
      case Parsed(root) =>
        match FirstNonEmpty(BodyCandidates(root))
        case None => None
        case Some(body) =>
          match New(ser(body.children[0]), parse)
          case Ok(content) => Some(content)
          case Fail(_) => None
  }

  /** A SOAP 1.1 Body directly under the root with content is the one extracted from. */
  lemma ExtractDirectBody(b: XmlBody, parse: Parser, ser: Serializer)
    requires IsSoapEnvelope(b.value) && parse(b.value).Parsed?
    requires var body := FindChild(parse(b.value).root, Qualified(Soap11Namespace, "Body"));
             body.Some? && |body.value.children| > 0
    requires var body := FindChild(parse(b.value).root, Qualified(Soap11Namespace, "Body"));
             New(ser(body.value.children[0]), parse).Ok?
    ensures var body := FindChild(parse(b.value).root, Qualified(Soap11Namespace, "Body"));
            ExtractBodyContent(b, parse, ser) == Some(XmlBody(ser(body.value.children[0])))
  {
  }

  /** With no Body that has children, nothing is extracted. */
  lemma ExtractNoBody(b: XmlBody, parse: Parser, ser: Serializer)
    requires parse(b.value).Parsed?
    requires forall c :: c in BodyCandidates(parse(b.value).root) && c.Some? ==> |c.value.children| == 0
    ensures ExtractBodyContent(b, parse, ser).None?
  {
    var cands := BodyCandidates(parse(b.value).root);
    assert forall i :: 0 <= i < |cands| ==> cands[i] in cands;
  }

  /** `has_namespace(ns)`: a default-namespace declaration for `ns` in either quote style. */
  predicate HasNamespace(b: XmlBody, ns: string) {
    Contains(b.value, "xmlns=\"" + ns + "\"") || Contains(b.value, "xmlns='" + ns + "'")
  }

  /** A default declaration of `ns` anywhere in the text, in either quote style, is found. */
  lemma DefaultDeclarationFound(b: XmlBody, ns: string, quote: char, i: nat)
    requires quote == '"' || quote == '\''
    requires var d := "xmlns=" + [quote] + ns + [quote];
             i + |d| <= |b.value| && b.value[i..i + |d|] == d
    ensures HasNamespace(b, ns)
  {
    if quote == '"' {
      assert "xmlns=" + [quote] + ns + [quote] == "xmlns=\"" + ns + "\"";
      ContainsAt(b.value, "xmlns=\"" + ns + "\"", i);
    } else {
      assert "xmlns=" + [quote] + ns + [quote] == "xmlns='" + ns + "'";
      ContainsAt(b.value, "xmlns='" + ns + "'", i);
    }
  }

  /** Text without '=' declares no namespace at all. */
  lemma NoEqualsNoNamespace(b: XmlBody, ns: string)
    requires forall i :: 0 <= i < |b.value| ==> b.value[i] != '='
    ensures !HasNamespace(b, ns)
  {
    assert ("xmlns=\"" + ns + "\"")[5] == '=';
    assert ("xmlns='" + ns + "'")[5] == '=';
    NotContainsMissing(b.value, "xmlns=\"" + ns + "\"", 5);
    NotContainsMissing(b.value, "xmlns='" + ns + "'", 5);
  }

  /** `len(body)` */
  function Len(b: XmlBody): nat {
    |b.value|
  }

  // ---------------------------------------------------------------------------
  // minify and equality

  /** The length of the whitespace run at the start of `s`. */
  function SpaceRun(s: string): (k: nat)
    ensures k <= |s| && AllSpace(s[..k]) && (k == |s| || !IsSpace(s[k]))
  {
    if |s| > 0 && IsSpace(s[0]) then 1 + SpaceRun(s[1..]) else 0
  }

  /** True when a match of `>\s+<` starts at index 0. */
  predicate GapAt(s: string) {
    |s| > 0 && s[0] == '>' && SpaceRun(s[1..]) > 0 && 1 + SpaceRun(s[1..]) < |s| && s[1 + SpaceRun(s[1..])] == '<'
  }

  /** `re.sub(r'>\s+<', '><', s)`: scanning left to right, every gap between '>' and '<' is removed. */
  function Collapse(s: string): (r: string)
    ensures |r| <= |s|
    ensures |s| > 0 ==> |r| > 0 && r[0] == s[0]
    decreases |s|
  {
    if |s| == 0 then []
    else if GapAt(s) then "><" + Collapse(s[2 + SpaceRun(s[1..])..])
    else [s[0]] + Collapse(s[1..])
  }

  /** The text `minify` produces. */
  function MinifiedText(value: string): string {
    Strip(Collapse(value))
  }

  /** `minify`: the collapsed, stripped text, validated again. */
  function Minify(b: XmlBody, parse: Parser): (r: Result<XmlBody>)
    ensures r.Ok? ==> r.value.value == MinifiedText(b.value)
  {
    New(MinifiedText(b.value), parse)
  }

  /** `__eq__`: compares the minified texts; an error raised by either `minify` propagates. */
  function Equals(a: XmlBody, b: XmlBody, parse: Parser): Result<bool> {
    match Minify(a, parse)
    case Fail(e) => Fail(e)
    case Ok(ma) =>
      match Minify(b, parse)
      case Fail(e) => Fail(e)
      case Ok(mb) => Ok(ma.value == mb.value)
  }

  /** What `__hash__` hashes. */
  function HashKey(a: XmlBody, parse: Parser): Result<string> {
    match Minify(a, parse)
    case Fail(e) => Fail(e)
    case Ok(m) => Ok(m.value)
  }

  /** A string with no match of `>\s+<` anywhere. */
  predicate NoGap(s: string) {
    forall i :: 0 <= i < |s| ==> !GapAt(s[i..])
  }

  lemma SpaceRunAppend(a: string, x: string)
    requires x == [] || !IsSpace(x[0])
    ensures SpaceRun(a + x) == SpaceRun(a)
    decreases |a|
  {
    if |a| > 0 && IsSpace(a[0]) {
      assert (a + x)[1..] == a[1..] + x;
      SpaceRunAppend(a[1..], x);
    }
  }

  /** Appending a text that starts with '>' does not change whether a gap starts at index 0. */
  lemma GapAppend(a: string, x: string)
    requires |a| > 0 && (x == [] || x[0] == '>')
    ensures (a + x)[1..] == a[1..] + x
    ensures SpaceRun((a + x)[1..]) == SpaceRun(a[1..])
    ensures GapAt(a + x) <==> GapAt(a)
    ensures GapAt(a) ==> (a + x)[2 + SpaceRun(a[1..])..] == a[2 + SpaceRun(a[1..])..] + x
  {
    assert (a + x)[1..] == a[1..] + x;
    SpaceRunAppend(a[1..], x);
    var k := SpaceRun(a[1..]);
    if 1 + k < |a| {
      assert (a + x)[1 + k] == a[1 + k];
    }
  }

  /** The scan never crosses into a suffix that starts with '>', so the parts collapse separately. */
  lemma {:induction false} CollapseAppend(a: string, x: string)
    requires x == [] || x[0] == '>'
    ensures Collapse(a + x) == Collapse(a) + Collapse(x)
    decreases |a|
  {
    if |a| == 0 {
      assert a + x == x;
    } else {
      GapAppend(a, x);
      if GapAt(a) {
        var rest := a[2 + SpaceRun(a[1..])..];
        CollapseAppend(rest, x);
        assert Collapse(a + x) == "><" + Collapse(rest + x);
        TextAssoc("><", Collapse(rest), Collapse(x));
      } else {
        CollapseAppend(a[1..], x);
        assert Collapse(a + x) == [a[0]] + Collapse(a[1..] + x);
        TextAssoc([a[0]], Collapse(a[1..]), Collapse(x));
      }
    }
  }

  /** Three texts laid end to end do not depend on grouping. */
  lemma TextAssoc(p: string, b: string, c: string)
    ensures p + (b + c) == p + b + c
  {
  }

  /** A gap `>ws<` at the front collapses to `><`. */
  lemma CollapseFrontGap(w: string, b: string)
    requires |w| > 0 && AllSpace(w)
    ensures Collapse(">" + w + "<" + b) == "><" + Collapse(b)
  {
    var g := ">" + w + "<" + b;
    assert g[1..] == w + ("<" + b);
    SpaceRunAppend(w, "<" + b);
    SpaceRunAll(w);
    assert g[1 + |w|] == '<';
    assert GapAt(g);
    assert g[2 + |w|..] == b;
  }

  /** `><` at the front is kept as it is. */
  lemma CollapseFrontClosed(b: string)
    ensures Collapse("><" + b) == "><" + Collapse(b)
  {
    var t := "><" + b;
    assert t[1..] == "<" + b;
    assert !GapAt(t);
    assert !GapAt("<" + b);
    assert ("<" + b)[1..] == b;
  }

  /** A whitespace gap `>ws<` collapses exactly as `><` does. */
  lemma CollapseGap(a: string, w: string, b: string)
    requires |w| > 0 && AllSpace(w)
    ensures Collapse(a + ">" + w + "<" + b) == Collapse(a + "><" + b)
  {
    var g := ">" + w + "<" + b;
    assert a + ">" + w + "<" + b == a + g;
    CollapseAppend(a, g);
    CollapseFrontGap(w, b);
    var t := "><" + b;
    assert a + "><" + b == a + t;
    CollapseAppend(a, t);
    CollapseFrontClosed(b);
  }

  lemma {:induction false} SpaceRunAll(w: string)
    requires AllSpace(w)
    ensures SpaceRun(w) == |w|
  {
    if |w| > 0 {
      SpaceRunAll(w[1..]);
    }
  }

  /** Bodies that differ only by whitespace between tags are equal. */
  lemma EqualsIgnoresGap(x: XmlBody, y: XmlBody, a: string, w: string, b: string, parse: Parser)
    requires x.value == a + ">" + w + "<" + b && y.value == a + "><" + b
    requires |w| > 0 && AllSpace(w)
    requires Minify(x, parse).Ok?
    ensures Equals(x, y, parse) == Ok(true)
  {
    CollapseGap(a, w, b);
  }

  /** Equality is reflexive whenever `minify` succeeds, symmetric, and agrees with the hash. */
  lemma EqualsProperties(x: XmlBody, y: XmlBody, parse: Parser)
    ensures Minify(x, parse).Ok? ==> Equals(x, x, parse) == Ok(true)
    ensures Equals(x, y, parse).Ok? <==> Equals(y, x, parse).Ok?
    ensures Equals(x, y, parse).Ok? ==> Equals(x, y, parse) == Equals(y, x, parse)
    ensures Equals(x, y, parse) == Ok(true) ==> HashKey(x, parse) == HashKey(y, parse)
  {
  }

  /** A collapsed text has no gap left, and stripping keeps it so. */
  lemma {:induction false} CollapseNoGap(s: string)
    ensures NoGap(Collapse(s))
    decreases |s|
  {
    if |s| > 0 {
      var r := Collapse(s);
      if GapAt(s) {
        var t := s[2 + SpaceRun(s[1..])..];
        CollapseNoGap(t);
        NoGapCons2(Collapse(t));
      } else if s[0] != '>' {
        CollapseNoGap(s[1..]);
        NoGapCons(s[0], Collapse(s[1..]));
      } else {
        var k := SpaceRun(s[1..]);
        var w := s[1..1 + k];
        var t := s[1 + k..];
        assert s[1..] == w + t;
        assert AllSpace(w);
        CollapseNoGap(t);
        CollapseSpaces(w, t);
        assert t == [] || !IsSpace(t[0]);
        assert t == [] || t[0] != '<' || k == 0;
        NoGapSpaces(w, Collapse(t), t);
        NoGapGt(w + Collapse(t));
      }
    }
  }

  /** Leading whitespace is copied unchanged by the scan. */
  lemma {:induction false} CollapseSpaces(w: string, t: string)
    requires AllSpace(w)
    ensures Collapse(w + t) == w + Collapse(t)
    decreases |w|
  {
    if |w| == 0 {
      assert w + t == t;
    } else {
      assert !GapAt(w + t) by {
        assert (w + t)[0] == w[0];
      }
      assert (w + t)[1..] == w[1..] + t;
      CollapseSpaces(w[1..], t);
    }
  }

  lemma NoGapCons(c: char, r: string)
    requires c != '>' && NoGap(r)
    ensures NoGap([c] + r)
  {
    var s := [c] + r;
    forall i | 0 <= i < |s| ensures !GapAt(s[i..]) {
      if i > 0 {
        assert s[i..] == r[i - 1..];
      }
    }
  }

  lemma NoGapCons2(r: string)
    requires NoGap(r)
    ensures NoGap("><" + r)
  {
    var s := "><" + r;
    forall i | 0 <= i < |s| ensures !GapAt(s[i..]) {
      if i > 1 {
        assert s[i..] == r[i - 2..];
      } else if i == 0 {
        assert s[1] == '<';
        assert SpaceRun(s[1..]) == 0;
      }
    }
  }

  /** Whitespace followed by a gap-free text that starts with neither whitespace nor '<' is gap-free. */
  lemma {:induction false} NoGapSpaces(w: string, r: string, t: string)
    requires AllSpace(w) && NoGap(r)
    requires |t| > 0 ==> |r| > 0 && r[0] == t[0]
    requires |t| == 0 ==> r == []
    requires t == [] || !IsSpace(t[0])
    requires |w| > 0 && t != [] ==> t[0] != '<'
    ensures NoGap(w + r)
    ensures |w + r| > 0 ==> (w + r)[0] != '>' || |w| == 0
    ensures SpaceRun(w + r) == |w|
    ensures |w| > 0 ==> |w| == |w + r| || (w + r)[|w|] != '<'
    decreases |w|
  {
    SpaceRunAppend(w, r);
    SpaceRunAll(w);
    if |w| > 0 {
      NoGapSpaces(w[1..], r, t);
      assert w + r == [w[0]] + (w[1..] + r);
      NoGapCons(w[0], w[1..] + r);
    } else {
      assert w + r == r;
    }
  }

  /** A leading '>' followed by whitespace that does not end in '<' adds no gap. */
  lemma NoGapGt(u: string)
    requires NoGap(u)
    requires |u| > 0 ==> SpaceRun(u) == 0 || SpaceRun(u) == |u| || u[SpaceRun(u)] != '<'
    ensures NoGap(">" + u)
  {
    var s := ">" + u;
    assert s[1..] == u;
    forall i | 0 <= i < |s| ensures !GapAt(s[i..]) {
      if i > 0 {
        assert s[i..] == u[i - 1..];
      }
    }
  }
}
