/**
 * The SOAP envelope value object of the domain layer: a validated body, an optional
 * header and extra namespace declarations, rendered into the envelope text line by line.
 */
module SoapEnvelope {
  import opened Wrappers
  import opened Strings
  import opened Dicts
  import opened XmlTree

  /** The two protocol versions, with the envelope namespace each one defines. */
  datatype SoapVersion = V1_1 | V1_2
  {
    /** SOAP 1.1 (section 4) and SOAP 1.2 Part 1 (section 5.1) envelope namespaces. */
    function Namespace(): string {
      if this == V1_1 then "http://schemas.xmlsoap.org/soap/envelope/"
      else "http://www.w3.org/2003/05/soap-envelope"
    }

    /** The prefix both versions are written with. */
    function Prefix(): string {
      "soap"
    }
  }

  datatype SoapEnvelope = SoapEnvelope(
    body: string,
    version: SoapVersion,
    header: Option<string>,
    declarations: Option<Dict<string>>)

  /** An optional string that Python treats as true. */
  predicate Present(s: Option<string>) {
    s.Some? && |s.value| > 0
  }

  /** An optional dict that Python treats as true. */
  predicate HasDeclarations(d: Option<Dict<string>>) {
    d.Some? && |d.value| > 0
  }

  /** What `__post_init__` demands of every envelope: a non-empty parsable body and a parsable header if present. */
  predicate Valid(e: SoapEnvelope, parse: Parser) {
    |e.body| > 0 && parse(e.body).Parsed? && (Present(e.header) ==> parse(e.header.value).Parsed?)
  }

  /** The dataclass constructor with its `__post_init__` checks, in their order. */
  function New(body: string, version: SoapVersion, header: Option<string>, declarations: Option<Dict<string>>,
               parse: Parser): (r: Result<SoapEnvelope>)
    ensures r.Ok? <==> Valid(SoapEnvelope(body, version, header, declarations), parse)
    ensures r.Ok? ==> r.value == SoapEnvelope(body, version, header, declarations)
    ensures |body| == 0 ==> r == Fail(ValueError("Body-Content darf nicht leer sein"))
    ensures |body| > 0 && parse(body).ParseError? ==>
              r == Fail(ValueError("Body-Content ist kein valides XML: " + parse(body).detail))
    ensures |body| > 0 && parse(body).Parsed? && Present(header) && parse(header.value).ParseError? ==>
              r == Fail(ValueError("Header-Content ist kein valides XML: " + parse(header.value).detail))
  {
    if |body| == 0 then Fail(ValueError("Body-Content darf nicht leer sein"))
    else if parse(body).ParseError? then Fail(ValueError("Body-Content ist kein valides XML: " + parse(body).detail))
    else if Present(header) && parse(header.value).ParseError? then
      Fail(ValueError("Header-Content ist kein valides XML: " + parse(header.value).detail))
    else Ok(SoapEnvelope(body, version, header, declarations))
  }

  /** `from_body`: an envelope without header. */
  function FromBody(body: string, version: SoapVersion, declarations: Option<Dict<string>>, parse: Parser)
    : (r: Result<SoapEnvelope>)
    ensures r.Ok? ==> r.value.header.None? && r.value.body == body
  {
    New(body, version, None, declarations, parse)
  }

  /** `with_header`: a new envelope, validated again, that differs only in its header. */
  function WithHeader(e: SoapEnvelope, header: string, parse: Parser): (r: Result<SoapEnvelope>)
    requires Valid(e, parse)
    ensures r.Ok? <==> |header| == 0 || parse(header).Parsed?
    ensures r.Ok? ==> r.value == e.(header := Some(header))
  {
    New(e.body, e.version, Some(header), e.declarations, parse)
  }

  /** `with_namespace`: a new envelope whose declarations are a copy of the old ones with `prefix` set to `uri`. */
  function WithNamespace(e: SoapEnvelope, prefix: string, uri: string, parse: Parser): (r: Result<SoapEnvelope>)
    requires Valid(e, parse)
    ensures r.Ok?
    ensures r.value == e.(declarations := Some(Set(DeclarationsOf(e), prefix, uri)))
  {
    New(e.body, e.version, e.header, Some(Set(DeclarationsOf(e), prefix, uri)), parse)
  }

  /** The declarations as a dict, `{}` for `None`. */
  function DeclarationsOf(e: SoapEnvelope): Dict<string> {
    if HasDeclarations(e.declarations) then e.declarations.value else []
  }

  // ---------------------------------------------------------------------------
  // build

  const Declaration: string := "<?xml version=\"1.0\" encoding=\"utf-8\"?>"
  const HeaderOpen: string := "<soap:Header>"
  const HeaderClose: string := "</soap:Header>"
  const BodyOpen: string := "<soap:Body>"
  const BodyClose: string := "</soap:Body>"
  const EnvelopeClose: string := "</soap:Envelope>"

  /** `xmlns:prefix="uri"` */
  function XmlnsAttr(prefix: string, uri: string): string {
    "xmlns:" + prefix + "=\"" + uri + "\""
  }

  /** One `xmlns:` attribute per declaration, in insertion order. */
  function XmlnsAttrs(d: Dict<string>): (r: seq<string>)
    ensures |r| == |d|
    ensures forall i :: 0 <= i < |d| ==> r[i] == XmlnsAttr(d[i].0, d[i].1)
  {
    if |d| == 0 then [] else [XmlnsAttr(d[0].0, d[0].1)] + XmlnsAttrs(d[1..])
  }

  /** The extra declarations as they appear in the start tag: each preceded by one space. */
  function ExtraAttrs(d: Dict<string>): string {
    if |d| == 0 then "" else " " + XmlnsAttr(d[0].0, d[0].1) + ExtraAttrs(d[1..])
  }

  /** The Envelope start tag: `xmlns:soap` first, then the extra declarations. */
  function EnvelopeStart(e: SoapEnvelope): string {
    "<soap:Envelope " + XmlnsAttr("soap", e.version.Namespace()) + ExtraAttrs(DeclarationsOf(e)) + ">"
  }

  /** The Header lines, present only for a non-empty header. */
  function HeaderLines(e: SoapEnvelope): string {
    if Present(e.header) then HeaderOpen + "\n" + e.header.value + "\n" + HeaderClose + "\n" else ""
  }

  /** The text of the envelope, line by line. */
  function Wire(e: SoapEnvelope): string {
    Declaration + "\n" + EnvelopeStart(e) + "\n" + HeaderLines(e)
    + BodyOpen + "\n" + e.body + "\n" + BodyClose + "\n" + EnvelopeClose
  }

  /** `build`: collects the declarations and the lines in lists and joins them. */
  method Build(e: SoapEnvelope) returns (s: string)
    ensures s == Wire(e)
  {
    var prefix := e.version.Prefix();
    var declarations := CollectDeclarations(e);
    var nsString := Join(" ", declarations);
    JoinAttrs(XmlnsAttr(prefix, e.version.Namespace()), DeclarationsOf(e));
    var parts := [Declaration];
    parts := parts + ["<" + prefix + ":Envelope " + nsString + ">"];
    if Present(e.header) {
      parts := parts + ["<" + prefix + ":Header>", e.header.value, "</" + prefix + ":Header>"];
    }
    parts := parts + ["<" + prefix + ":Body>", e.body, "</" + prefix + ":Body>"];
    parts := parts + ["</" + prefix + ":Envelope>"];
    s := Join("\n", parts);
    SoapTags(prefix, nsString, e);
    JoinLines(e, parts);
  }

  /** The `ns_declarations` list of `build`: `xmlns:soap` first, then one entry per declaration in insertion order. */
  method CollectDeclarations(e: SoapEnvelope) returns (declarations: seq<string>)
    ensures declarations == [XmlnsAttr("soap", e.version.Namespace())] + XmlnsAttrs(DeclarationsOf(e))
  {
    declarations := [XmlnsAttr(e.version.Prefix(), e.version.Namespace())];
    if HasDeclarations(e.declarations) {
      var d := e.declarations.value;
      var i := 0;
      while i < |d|
        invariant 0 <= i <= |d|
        invariant declarations == [XmlnsAttr("soap", e.version.Namespace())] + XmlnsAttrs(d[..i])
      {
        assert XmlnsAttrs(d[..i + 1]) == XmlnsAttrs(d[..i]) + [XmlnsAttr(d[i].0, d[i].1)];
        declarations := declarations + [XmlnsAttr(d[i].0, d[i].1)];
        i := i + 1;
      }
      assert d[..i] == d;
    }
  }

  /** The tags `build` formats from the prefix are the SOAP tags of the envelope text. */
  lemma SoapTags(prefix: string, nsString: string, e: SoapEnvelope)
    requires prefix == "soap"
    requires nsString == XmlnsAttr("soap", e.version.Namespace()) + ExtraAttrs(DeclarationsOf(e))
    ensures "<" + prefix + ":Envelope " + nsString + ">" == EnvelopeStart(e)
    ensures "<" + prefix + ":Header>" == HeaderOpen && "</" + prefix + ":Header>" == HeaderClose
    ensures "<" + prefix + ":Body>" == BodyOpen && "</" + prefix + ":Body>" == BodyClose
    ensures "</" + prefix + ":Envelope>" == EnvelopeClose
  {
    EnvelopeTag(nsString);
    AttrsAssoc("<soap:Envelope ", XmlnsAttr("soap", e.version.Namespace()), ExtraAttrs(DeclarationsOf(e)));
    HeaderTags();
    BodyTags();
    CloseTag();
  }

  /** The Envelope start tag formatted from the prefix "soap". */
  lemma EnvelopeTag(nsString: string)
    ensures "<" + "soap" + ":Envelope " + nsString + ">" == "<soap:Envelope " + nsString + ">"
  {
    assert "<" + "soap" + ":Envelope " == "<soap:Envelope ";
  }

  /** The start-tag attributes do not depend on how they are grouped. */
  lemma AttrsAssoc(a: string, b: string, c: string)
    ensures a + (b + c) + ">" == a + b + c + ">"
  {
  }

  /** The Header tags formatted from the prefix "soap". */
  lemma HeaderTags()
    ensures "<" + "soap" + ":Header>" == HeaderOpen && "</" + "soap" + ":Header>" == HeaderClose
  {
  }

  /** The Body tags formatted from the prefix "soap". */
  lemma BodyTags()
    ensures "<" + "soap" + ":Body>" == BodyOpen && "</" + "soap" + ":Body>" == BodyClose
  {
  }

  /** The Envelope end tag formatted from the prefix "soap". */
  lemma CloseTag()
    ensures "</" + "soap" + ":Envelope>" == EnvelopeClose
  {
  }

  /** Joining the start-tag attributes with spaces puts one space before each extra declaration. */
  lemma {:induction false} JoinAttrs(first: string, d: Dict<string>)
    ensures Join(" ", [first] + XmlnsAttrs(d)) == first + ExtraAttrs(d)
    decreases |d|
  {
    if |d| > 0 {
      var next := XmlnsAttr(d[0].0, d[0].1);
      assert [first] + XmlnsAttrs(d) == [first] + ([next] + XmlnsAttrs(d[1..]));
      assert ([first] + XmlnsAttrs(d))[1..] == [next] + XmlnsAttrs(d[1..]);
      JoinAttrs(next, d[1..]);
    } else {
      assert [first] + XmlnsAttrs(d) == [first];
    }
  }

  /** `sep.join([a] + rest)` for a non-empty rest. */
  lemma JoinCons(sep: string, a: string, rest: seq<string>)
    requires |rest| > 0
    ensures Join(sep, [a] + rest) == a + sep + Join(sep, rest)
  {
    assert ([a] + rest)[1..] == rest;
  }

  /** Joining the lines of the body part. */
  lemma JoinBody(sep: string, open: string, body: string, close: string, last: string)
    ensures Join(sep, [open, body, close, last]) == open + sep + body + sep + close + sep + last
  {
    JoinCons(sep, close, [last]);
    assert [body, close, last] == [body] + [close, last];
    JoinCons(sep, body, [close, last]);
    assert [open, body, close, last] == [open] + [body, close, last];
    JoinCons(sep, open, [body, close, last]);
  }

  /** Joining lines before a non-empty tail. */
  lemma JoinFront(sep: string, front: seq<string>, tail: seq<string>)
    requires |tail| > 0
    ensures Join(sep, front + tail) == JoinedFront(sep, front) + Join(sep, tail)
    decreases |front|
  {
    if |front| > 0 {
      assert front + tail == [front[0]] + (front[1..] + tail);
      JoinCons(sep, front[0], front[1..] + tail);
      JoinFront(sep, front[1..], tail);
    } else {
      assert front + tail == tail;
    }
  }

  /** Each line of `front` followed by the separator. */
  function JoinedFront(sep: string, front: seq<string>): string {
    if |front| == 0 then "" else front[0] + sep + JoinedFront(sep, front[1..])
  }

  /** The line list of `build` joins to the envelope text. */
  lemma JoinLines(e: SoapEnvelope, parts: seq<string>)
    requires parts == [Declaration, EnvelopeStart(e)]
                       + (if Present(e.header) then [HeaderOpen, e.header.value, HeaderClose] else [])
                       + [BodyOpen, e.body, BodyClose] + [EnvelopeClose]
    ensures Join("\n", parts) == Wire(e)
  {
    var tail := [BodyOpen, e.body, BodyClose, EnvelopeClose];
    if Present(e.header) {
      JoinWithHeader("\n", Declaration, EnvelopeStart(e), HeaderOpen, e.header.value, HeaderClose,
                     BodyOpen, e.body, BodyClose, EnvelopeClose);
    } else {
      JoinWithoutHeader("\n", Declaration, EnvelopeStart(e), BodyOpen, e.body, BodyClose, EnvelopeClose);
    }
  }

  lemma JoinWithHeader(nl: string, d: string, st: string, ho: string, hv: string, hc: string,
                       bo: string, b: string, bc: string, ec: string)
    ensures Join(nl, [d, st] + [ho, hv, hc] + [bo, b, bc] + [ec])
            == d + nl + st + nl + (ho + nl + hv + nl + hc + nl) + bo + nl + b + nl + bc + nl + ec
  {
    var tail := [bo, b, bc, ec];
    var front := [d, st, ho, hv, hc];
    assert [d, st] + [ho, hv, hc] + [bo, b, bc] + [ec] == front + tail;
    JoinFront(nl, front, tail);
    JoinBody(nl, bo, b, bc, ec);
    assert front[1..][1..][1..][1..][1..] == [];
    assert JoinedFront(nl, front[4..]) == hc + nl;
    assert JoinedFront(nl, front[3..]) == hv + nl + hc + nl;
    assert JoinedFront(nl, front[2..]) == ho + nl + hv + nl + hc + nl;
  }

  lemma JoinWithoutHeader(nl: string, d: string, st: string, bo: string, b: string, bc: string, ec: string)
    ensures Join(nl, [d, st] + [] + [bo, b, bc] + [ec]) == d + nl + st + nl + "" + bo + nl + b + nl + bc + nl + ec
  {
    var tail := [bo, b, bc, ec];
    var front := [d, st];
    assert [d, st] + [] + [bo, b, bc] + [ec] == front + tail;
    JoinFront(nl, front, tail);
    JoinBody(nl, bo, b, bc, ec);
    assert front[1..][1..] == [];
  }

  // ---------------------------------------------------------------------------
  // Equality

  /** `==` on the optional declaration dicts: `None` equals only `None`; dicts compare as maps. */
  predicate SameDeclarations(a: Option<Dict<string>>, b: Option<Dict<string>>) {
    (a.None? && b.None?) || (a.Some? && b.Some? && ToMap(a.value) == ToMap(b.value))
  }

  /** `__eq__`: field by field. */
  predicate Equals(a: SoapEnvelope, b: SoapEnvelope) {
    a.body == b.body && a.version == b.version && a.header == b.header
    && SameDeclarations(a.declarations, b.declarations)
  }

  /** What `__hash__` hashes: the declarations sorted, which is to say as a map; `()` when there are none. */
  function HashKey(a: SoapEnvelope): (string, SoapVersion, Option<string>, map<string, string>) {
    (a.body, a.version, a.header, ToMap(DeclarationsOf(a)))
  }

  // ---------------------------------------------------------------------------
  // Properties

  /** The two versions use different namespaces, so the envelope namespace identifies the version. */
  lemma NamespacesDiffer()
    ensures V1_1.Namespace() != V1_2.Namespace()
    ensures V1_1.Prefix() == V1_2.Prefix() == "soap"
  {
    assert V1_1.Namespace()[7] != V1_2.Namespace()[7];
  }

  /** The envelope text starts with the XML declaration line and ends with the closing Body and Envelope tags. */
  lemma WireFrame(e: SoapEnvelope)
    ensures StartsWith(Wire(e), Declaration + "\n" + EnvelopeStart(e))
    ensures EndsWith(Wire(e), BodyClose + "\n" + EnvelopeClose)
  {
    Frame(Declaration, "\n", EnvelopeStart(e), HeaderLines(e), BodyOpen, e.body, BodyClose, EnvelopeClose);
  }

  lemma Frame(d: string, nl: string, st: string, h: string, bo: string, b: string, bc: string, ec: string)
    ensures StartsWith(d + nl + st + nl + h + bo + nl + b + nl + bc + nl + ec, d + nl + st)
    ensures EndsWith(d + nl + st + nl + h + bo + nl + b + nl + bc + nl + ec, bc + nl + ec)
  {
    var w := d + nl + st + nl + h + bo + nl + b + nl + bc + nl + ec;
    var p := d + nl + st;
    var q := bc + nl + ec;
    var m := nl + h + bo + nl + b + nl;
    assert w == p + m + q;
    Affixes(p, m, q);
  }

  lemma Affixes(p: string, m: string, q: string)
    ensures StartsWith(p + m + q, p) && EndsWith(p + m + q, q)
  {
    assert (p + m + q)[..|p|] == p;
    assert (p + m + q)[|p + m + q| - |q|..] == q;
  }

  /** The body text appears verbatim between the Body tags, directly after the Header block when there is one. */
  lemma BodyVerbatim(e: SoapEnvelope)
    ensures Contains(Wire(e), BodyOpen + "\n" + e.body + "\n" + BodyClose)
    ensures Present(e.header) ==>
              Contains(Wire(e), HeaderOpen + "\n" + e.header.value + "\n" + HeaderClose + "\n" + BodyOpen)
  {
    BodyBetween(Declaration, "\n", EnvelopeStart(e), HeaderLines(e), BodyOpen, e.body, BodyClose, EnvelopeClose);
    if Present(e.header) {
      HeaderBeforeBody(Declaration, "\n", EnvelopeStart(e), HeaderOpen, e.header.value, HeaderClose,
                       BodyOpen, e.body, BodyClose, EnvelopeClose);
    }
  }

  lemma BodyBetween(d: string, nl: string, st: string, h: string, bo: string, b: string, bc: string, ec: string)
    ensures Contains(d + nl + st + nl + h + bo + nl + b + nl + bc + nl + ec, bo + nl + b + nl + bc)
  {
    var x := d + nl + st + nl + h;
    var t := bo + nl + b + nl + bc;
    var z := nl + ec;
    assert d + nl + st + nl + h + bo + nl + b + nl + bc + nl + ec == x + t + z;
    ContainsMiddle(x, t, z);
  }

  lemma HeaderBeforeBody(d: string, nl: string, st: string, ho: string, hv: string, hc: string,
                         bo: string, b: string, bc: string, ec: string)
    ensures Contains(d + nl + st + nl + (ho + nl + hv + nl + hc + nl) + bo + nl + b + nl + bc + nl + ec,
                     ho + nl + hv + nl + hc + nl + bo)
  {
    var x := d + nl + st + nl;
    var t := ho + nl + hv + nl + hc + nl + bo;
    var z := nl + b + nl + bc + nl + ec;
    assert d + nl + st + nl + (ho + nl + hv + nl + hc + nl) + bo + nl + b + nl + bc + nl + ec == x + t + z;
    ContainsMiddle(x, t, z);
  }

  /** The Header block is written exactly when the header is non-empty; an empty header leaves the text unchanged. */
  lemma EmptyHeaderOmitted(e: SoapEnvelope)
    ensures Wire(e.(header := Some(""))) == Wire(e.(header := None))
  {
  }

  /** A new prefix adds its declaration at the end of the start tag; everything else is unchanged. */
  lemma WithNamespaceAppends(e: SoapEnvelope, prefix: string, uri: string, parse: Parser)
    requires Valid(e, parse)
    requires !HasKey(DeclarationsOf(e), prefix)
    ensures var e' := WithNamespace(e, prefix, uri, parse).value;
            EnvelopeStart(e') ==
              "<soap:Envelope " + XmlnsAttr("soap", e.version.Namespace()) + ExtraAttrs(DeclarationsOf(e))
              + " " + XmlnsAttr(prefix, uri) + ">"
            && HeaderLines(e') == HeaderLines(e) && e'.body == e.body
  {
    var d := DeclarationsOf(e);
    var e' := WithNamespace(e, prefix, uri, parse).value;
    SetAbsent(d, prefix, uri);
    assert DeclarationsOf(e') == d + [(prefix, uri)];
    ExtraAttrsAppend(d, prefix, uri);
    StartAppend("<soap:Envelope ", XmlnsAttr("soap", e.version.Namespace()), ExtraAttrs(d), XmlnsAttr(prefix, uri));
  }

  /** An attribute appended to the extra declarations lands just before the closing '>'. */
  lemma StartAppend(a: string, x: string, extra: string, y: string)
    ensures a + x + (extra + " " + y) + ">" == a + x + extra + " " + y + ">"
  {
  }

  lemma {:induction false} ExtraAttrsAppend(d: Dict<string>, prefix: string, uri: string)
    ensures ExtraAttrs(d + [(prefix, uri)]) == ExtraAttrs(d) + " " + XmlnsAttr(prefix, uri)
    decreases |d|
  {
    if |d| == 0 {
      assert d + [(prefix, uri)] == [(prefix, uri)];
      assert [(prefix, uri)][1..] == [];
    } else {
      assert (d + [(prefix, uri)])[1..] == d[1..] + [(prefix, uri)];
      ExtraAttrsAppend(d[1..], prefix, uri);
    }
  }

  /** `with_namespace` makes the new prefix resolve to the new URI and keeps every other declaration. */
  lemma WithNamespaceGet(e: SoapEnvelope, prefix: string, uri: string, parse: Parser, other: string)
    requires Valid(e, parse)
    ensures var d' := DeclarationsOf(WithNamespace(e, prefix, uri, parse).value);
            Get(d', prefix) == Some(uri)
            && (other != prefix ==> Get(d', other) == Get(DeclarationsOf(e), other))
  {
    var d := DeclarationsOf(e);
    GetSetSame(d, prefix, uri);
    if other != prefix {
      GetSetOther(d, prefix, uri, other);
    }
  }

  /** Equal envelopes hash alike, and equality is an equivalence. */
  lemma EqualsHash(a: SoapEnvelope, b: SoapEnvelope)
    requires Equals(a, b)
    ensures HashKey(a) == HashKey(b)
    ensures Equals(b, a)
  {
    if a.declarations.Some? && |a.declarations.value| > 0 && b.declarations.Some? && |b.declarations.value| == 0 {
      assert ToMap(b.declarations.value) == map[];
      assert a.declarations.value[0].0 in ToMap(a.declarations.value);
    }
    if b.declarations.Some? && |b.declarations.value| > 0 && a.declarations.Some? && |a.declarations.value| == 0 {
      assert ToMap(a.declarations.value) == map[];
      assert b.declarations.value[0].0 in ToMap(b.declarations.value);
    }
  }

  /** Declaring the same prefixes in another order gives an equal envelope, and so the same hash. */
  lemma DeclarationOrderIgnored(a: SoapEnvelope, d: Dict<string>)
    requires a.declarations.Some? && ToMap(a.declarations.value) == ToMap(d)
    ensures Equals(a, a.(declarations := Some(d)))
    ensures HashKey(a) == HashKey(a.(declarations := Some(d)))
  {
    EqualsHash(a, a.(declarations := Some(d)));
  }
}
