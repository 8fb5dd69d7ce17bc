/**
 * The SOAP envelope value object of the plugin layer: the same validation as the domain
 * envelope, plus a body namespace prefix, rendered as an ElementTree element tree.
 */
module TreeSoapEnvelope {
  import opened Wrappers
  import opened Strings
  import opened Dicts
  import opened XmlTree
  import opened SoapEnvelope

  datatype TreeEnvelope = TreeEnvelope(
    body: string,
    version: SoapVersion,
    header: Option<string>,
    declarations: Option<Dict<string>>,
    namespacePrefix: Option<string>)

  /** What `__post_init__` demands: a non-empty parsable body and a parsable header if present. */
  predicate Valid(e: TreeEnvelope, parse: Parser) {
    |e.body| > 0 && parse(e.body).Parsed? && (Present(e.header) ==> parse(e.header.value).Parsed?)
  }

  /** The dataclass constructor with its `__post_init__` checks, in their order. */
  function New(body: string, version: SoapVersion, header: Option<string>, declarations: Option<Dict<string>>,
               namespacePrefix: Option<string>, parse: Parser): (r: Result<TreeEnvelope>)
    ensures r.Ok? <==> Valid(TreeEnvelope(body, version, header, declarations, namespacePrefix), parse)
    ensures r.Ok? ==> r.value == TreeEnvelope(body, version, header, declarations, namespacePrefix)
    ensures |body| == 0 ==> r == Fail(ValueError("Body-Content darf nicht leer sein"))
    ensures |body| > 0 && parse(body).ParseError? ==>
              r == Fail(ValueError("Body-Content ist kein valides XML: " + parse(body).detail))
    ensures |body| > 0 && parse(body).Parsed? && Present(header) && parse(header.value).ParseError? ==>
              r == Fail(ValueError("Header-Content ist kein valides XML: " + parse(header.value).detail))
  {
    if |body| == 0 then Fail(ValueError("Body-Content darf nicht leer sein"))
    else if parse(body).ParseError? then Fail(ValueError("Body-Content ist kein valides XML: " + parse(body).detail))
    else if Present(header) && parse(header.value).ParseError? then
      Fail(ValueError("Header-Content ist kein valides XML: " + parse(header.value).detail))
    else Ok(TreeEnvelope(body, version, header, declarations, namespacePrefix))
  }

  /** `from_body`: an envelope without header. */
  function FromBody(body: string, version: SoapVersion, declarations: Option<Dict<string>>,
                    namespacePrefix: Option<string>, parse: Parser): (r: Result<TreeEnvelope>)
    ensures r.Ok? ==> r.value.header.None? && r.value.body == body && r.value.namespacePrefix == namespacePrefix
  {
    New(body, version, None, declarations, namespacePrefix, parse)
  }

  /** `with_header`: validated again; only the header differs. */
  function WithHeader(e: TreeEnvelope, header: string, parse: Parser): (r: Result<TreeEnvelope>)
    requires Valid(e, parse)
    ensures r.Ok? <==> |header| == 0 || parse(header).Parsed?
    ensures r.Ok? ==> r.value == e.(header := Some(header))
  {
    New(e.body, e.version, Some(header), e.declarations, e.namespacePrefix, parse)
  }

  /** The declarations as a dict, `{}` for `None`. */
  function DeclarationsOf(e: TreeEnvelope): Dict<string> {
    if HasDeclarations(e.declarations) then e.declarations.value else []
  }

  /** `with_namespace`: a copy of the declarations with `prefix` set to `uri`; nothing else changes. */
  function WithNamespace(e: TreeEnvelope, prefix: string, uri: string, parse: Parser): (r: Result<TreeEnvelope>)
    requires Valid(e, parse)
    ensures r.Ok? && r.value == e.(declarations := Some(Set(DeclarationsOf(e), prefix, uri)))
  {
    New(e.body, e.version, e.header, Some(Set(DeclarationsOf(e), prefix, uri)), e.namespacePrefix, parse)
  }

  /** `with_namespace_prefix`: only the body prefix changes. */
  function WithNamespacePrefix(e: TreeEnvelope, prefix: string, parse: Parser): (r: Result<TreeEnvelope>)
    requires Valid(e, parse)
    ensures r.Ok? && r.value == e.(namespacePrefix := Some(prefix))
  {
    New(e.body, e.version, e.header, e.declarations, Some(prefix), parse)
  }

  // ---------------------------------------------------------------------------
  // build

  /** The element tree `build` serialises: Envelope, an optional Header, then Body holding the parsed body. */
  function EnvelopeTree(e: TreeEnvelope, parse: Parser): (r: Node)
    requires Valid(e, parse)
    ensures r.tag == Qualified(e.version.Namespace(), "Envelope")
    ensures |r.children| == if Present(e.header) then 2 else 1
    ensures Present(e.header) ==>
              r.children[0] == Node(Qualified(e.version.Namespace(), "Header"), [], None, [parse(e.header.value).root])
    ensures r.children[|r.children| - 1] == Node(Qualified(e.version.Namespace(), "Body"), [], None, [parse(e.body).root])
  {
    var ns := e.version.Namespace();
    var body := Node(Qualified(ns, "Body"), [], None, [parse(e.body).root]);
    if Present(e.header) then
      Node(Qualified(ns, "Envelope"), [], None, [Node(Qualified(ns, "Header"), [], None, [parse(e.header.value).root]), body])
    else Node(Qualified(ns, "Envelope"), [], None, [body])
  }

  /** The `ET.register_namespace` calls `build` makes, in order. */
  function Registrations(e: TreeEnvelope): seq<(string, string)> {
    [("soap", e.version.Namespace())] + DeclarationRegistrations(DeclarationsOf(e))
    + (if Present(e.namespacePrefix) then PrefixRegistration(DeclarationsOf(e), e.namespacePrefix.value) else [])
  }

  /** One registration per declaration; an empty prefix registers the default namespace. */
  function DeclarationRegistrations(d: Dict<string>): (r: seq<(string, string)>)
    ensures |r| == |d|
    ensures forall i :: 0 <= i < |d| ==> r[i] == d[i]
  {
    if |d| == 0 then [] else [d[0]] + DeclarationRegistrations(d[1..])
  }

  /** The first declaration of `prefix`, registered once more; nothing when no declaration uses it. */
  function PrefixRegistration(d: Dict<string>, prefix: string): (r: seq<(string, string)>)
    ensures |r| <= 1
    ensures |r| == 1 <==> HasKey(d, prefix)
  {
    match Get(d, prefix)
    case Some(uri) => [(prefix, uri)]
    case None => []
  }

  /** The text `build` returns and the registrations it makes. */
  datatype Built = Built(text: string, registrations: seq<(string, string)>)

  /** `build`: registers the namespaces, assembles the tree and serialises it after the XML declaration. */
  method Build(e: TreeEnvelope, parse: Parser, ser: Serializer) returns (r: Built)
    requires Valid(e, parse)
    ensures r.text == Declaration + "\n" + ser(EnvelopeTree(e, parse))
    ensures r.registrations == Registrations(e)
  {
    var registrations := RegisterNamespaces(e);
    var envelope := AssembleTree(e, parse);
    r := Built(Declaration + "\n" + ser(envelope), registrations);
  }

  /** The registration part of `build`: the SOAP namespace, each declaration, then the body prefix once more. */
  method RegisterNamespaces(e: TreeEnvelope) returns (registrations: seq<(string, string)>)
    ensures registrations == Registrations(e)
  {
    registrations := [("soap", e.version.Namespace())];
    var d := DeclarationsOf(e);
    var i := 0;
    while i < |d|
      invariant 0 <= i <= |d|
      invariant registrations == [("soap", e.version.Namespace())] + DeclarationRegistrations(d[..i])
    {
      var prefix := if |d[i].0| > 0 then d[i].0 else "";
      assert prefix == d[i].0;
      assert DeclarationRegistrations(d[..i + 1]) == DeclarationRegistrations(d[..i]) + [d[i]];
      registrations := registrations + [(prefix, d[i].1)];
      i := i + 1;
    }
    assert d[..i] == d;
    if Present(e.namespacePrefix) && |d| > 0 {
      var found := FindPrefix(d, e.namespacePrefix.value);
      registrations := registrations + found;
    }
  }

  /** The tree part of `build`: Envelope, the Header if any, then Body, each filled with the parsed content. */
  method AssembleTree(e: TreeEnvelope, parse: Parser) returns (envelope: Node)
    requires Valid(e, parse)
    ensures envelope == EnvelopeTree(e, parse)
  {
    var soapNs := e.version.Namespace();
    envelope := Element(Qualified(soapNs, "Envelope"));
    if Present(e.header) {
      var header := Element(Qualified(soapNs, "Header"));
      header := header.(children := header.children + [parse(e.header.value).root]);
      assert header.children == [parse(e.header.value).root];
      envelope := envelope.(children := envelope.children + [header]);
      assert envelope.children == [Node(Qualified(soapNs, "Header"), [], None, [parse(e.header.value).root])];
    }
    var body := Element(Qualified(soapNs, "Body"));
    body := body.(children := body.children + [parse(e.body).root]);
    assert body.children == [parse(e.body).root];
    envelope := envelope.(children := envelope.children + [body]);
    if Present(e.header) {
      assert envelope.children
          == [Node(Qualified(soapNs, "Header"), [], None, [parse(e.header.value).root]), body];
    } else {
      assert envelope.children == [body];
    }
  }

  /** The search loop of `build`: the first declaration whose prefix is `prefix`, as a registration. */
  method FindPrefix(d: Dict<string>, prefix: string) returns (found: seq<(string, string)>)
    ensures found == PrefixRegistration(d, prefix)
  {
    found := [];
    var i := 0;
    while i < |d|
      invariant 0 <= i <= |d|
      invariant Get(d, prefix) == Get(d[i..], prefix)
    {
      if d[i].0 == prefix {
        found := [(prefix, d[i].1)];
        break;
      }
      assert d[i..][1..] == d[i + 1..];
      i := i + 1;
    }
  }

  // ---------------------------------------------------------------------------
  // Equality

  /** `__eq__`: field by field, the body prefix included. */
  predicate Equals(a: TreeEnvelope, b: TreeEnvelope) {
    a.body == b.body && a.version == b.version && a.header == b.header
    && SameDeclarations(a.declarations, b.declarations) && a.namespacePrefix == b.namespacePrefix
  }

  /** What `__hash__` hashes: the declarations sorted, which is to say as a map, and the body prefix. */
  function HashKey(a: TreeEnvelope): (string, SoapVersion, Option<string>, map<string, string>, Option<string>) {
    (a.body, a.version, a.header, ToMap(DeclarationsOf(a)), a.namespacePrefix)
  }

  // ---------------------------------------------------------------------------
  // Properties

  /** The body prefix, when declared, is registered last, so the serialiser writes that prefix for its URI. */
  lemma PrefixRegisteredLast(e: TreeEnvelope)
    requires Present(e.namespacePrefix) && HasKey(DeclarationsOf(e), e.namespacePrefix.value)
    ensures var rs := Registrations(e);
            rs[|rs| - 1] == (e.namespacePrefix.value, Get(DeclarationsOf(e), e.namespacePrefix.value).value)
  {
  }

  /** The SOAP namespace is always registered first, under the prefix `soap`. */
  lemma SoapRegisteredFirst(e: TreeEnvelope)
    ensures Registrations(e)[0] == ("soap", e.version.Namespace())
    ensures |Registrations(e)| == 1 + |DeclarationsOf(e)| + (if Present(e.namespacePrefix) && HasKey(DeclarationsOf(e), e.namespacePrefix.value) then 1 else 0)
  {
  }

  /** An empty header builds the same envelope as no header. */
  lemma EmptyHeaderOmitted(e: TreeEnvelope, parse: Parser)
    requires Valid(e, parse) && e.header == Some("")
    ensures Valid(e.(header := None), parse)
    ensures EnvelopeTree(e, parse) == EnvelopeTree(e.(header := None), parse)
  {
  }

  /** Equal envelopes hash alike; the prefix takes part in both. */
  lemma EqualsHash(a: TreeEnvelope, b: TreeEnvelope)
    requires Equals(a, b)
    ensures HashKey(a) == HashKey(b) && Equals(b, a)
  {
    if a.declarations.Some? && |a.declarations.value| > 0 && b.declarations.Some? && |b.declarations.value| == 0 {
      assert a.declarations.value[0].0 in ToMap(a.declarations.value);
    }
    if b.declarations.Some? && |b.declarations.value| > 0 && a.declarations.Some? && |a.declarations.value| == 0 {
      assert b.declarations.value[0].0 in ToMap(b.declarations.value);
    }
  }

  /** Two envelopes that differ only in the body prefix are not equal. */
  lemma PrefixDistinguishes(a: TreeEnvelope, p: string)
    requires a.namespacePrefix != Some(p)
    ensures !Equals(a, a.(namespacePrefix := Some(p)))
  {
  }
}
