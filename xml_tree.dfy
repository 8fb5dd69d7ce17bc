/** ElementTree elements as values, and the two ElementTree searches the code uses. */
module XmlTree {
  import opened Wrappers
  import opened Dicts

  /**
   * An element: its tag (namespaced tags in Clark notation `{uri}local`), attributes,
   * text before the first child (`None` when there is none) and children.
   */
  datatype Node = Node(tag: string, attrs: Dict<string>, text: Option<string>, children: seq<Node>)

  /** The outcome of `ET.fromstring`: the root element, or the text of the `ParseError` raised. */
  datatype Parsed = Parsed(root: Node) | ParseError(detail: string)

  /** `ET.fromstring`, which the modelled code treats as given. */
  type Parser = string -> Parsed

  /** `ET.tostring(el, encoding='unicode')` */
  type Serializer = Node -> string

  /** `ET.Element(tag)` */
  function Element(tag: string): Node {
    Node(tag, [], None, [])
  }

  /** `{uri}local` */
  function Qualified(uri: string, local: string): string {
    "{" + uri + "}" + local
  }

  /** The first node of `cs` with the given tag. */
  function FindFirst(cs: seq<Node>, tag: string): (r: Option<Node>)
    ensures r.Some? ==> r.value in cs && r.value.tag == tag
    ensures r.None? ==> forall i :: 0 <= i < |cs| ==> cs[i].tag != tag
  {
    if |cs| == 0 then None else if cs[0].tag == tag then Some(cs[0]) else FindFirst(cs[1..], tag)
  }

  /** `el.find(tag)`: the first direct child with that tag. */
  function FindChild(n: Node, tag: string): Option<Node> {
    FindFirst(n.children, tag)
  }

  /** All nodes of a forest in document order (each node before its descendants). */
  function Descendants(cs: seq<Node>): seq<Node>
    decreases cs
  {
    if |cs| == 0 then [] else [cs[0]] + Descendants(cs[0].children) + Descendants(cs[1..])
  }

  /** `el.find('.//' + tag)`: the first proper descendant with that tag, in document order. */
  function FindDescendant(n: Node, tag: string): Option<Node> {
    FindFirst(Descendants(n.children), tag)
  }

  /** A direct child is also found by the descendant search, though possibly a deeper node comes first. */
  lemma ChildIsDescendant(n: Node, tag: string)
    requires FindChild(n, tag).Some?
    ensures FindDescendant(n, tag).Some?
  {
    var c := FindChild(n, tag).value;
    DescendantsContain(n.children, c);
    var ds := Descendants(n.children);
    var i :| 0 <= i < |ds| && ds[i] == c;
    assert ds[i].tag == tag;
  }

  lemma {:induction false} DescendantsContain(cs: seq<Node>, c: Node)
    requires c in cs
    ensures c in Descendants(cs)
    decreases cs
  {
    if cs[0] != c {
      DescendantsContain(cs[1..], c);
    }
  }

  /** Number of elements in the tree. */
  function Size(n: Node): nat {
    1 + SizeAll(n.children)
  }

  function SizeAll(cs: seq<Node>): nat
    decreases cs
  {
    if |cs| == 0 then 0 else Size(cs[0]) + SizeAll(cs[1..])
  }
}
