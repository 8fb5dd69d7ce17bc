/** The SOAP action value object: validation, qualified-name parsing and header rendering. */
module SoapAction {
  import opened Wrappers
  import opened Strings

  /** A validated action; `namespace` is kept exactly as given (it may be the empty string). */
  datatype SoapAction = SoapAction(value: string, namespace: Option<string>)

  /** The constructor's checks: the value must be non-empty and free of whitespace. */
  function New(value: string, namespace: Option<string>): (r: Result<SoapAction>)
    ensures r.Ok? <==> |value| > 0 && !HasSpace(value)
    ensures r.Ok? ==> r.value == SoapAction(value, namespace)
    ensures |value| == 0 ==> r == Fail(ValueError("SOAP Action darf nicht leer sein"))
    ensures |value| > 0 && HasSpace(value) ==>
              r == Fail(ValueError("SOAP Action darf keine Leerzeichen enthalten: " + value))
  {
    if |value| == 0 then Fail(ValueError("SOAP Action darf nicht leer sein"))
    else if HasSpace(value) then Fail(ValueError("SOAP Action darf keine Leerzeichen enthalten: " + value))
    else Ok(SoapAction(value, namespace))
  }

  /** `SoapAction.from_string`: strips, then validates. */
  function FromString(s: string, namespace: Option<string>): (r: Result<SoapAction>)
    ensures r.Ok? <==> |Strip(s)| > 0 && !HasSpace(Strip(s))
    ensures r.Ok? ==> r.value.value == Strip(s) && r.value.namespace == namespace
  {
    New(Strip(s), namespace)
  }

  /** `SoapAction.from_qualified_name` */
  function FromQualifiedName(q: string): Result<SoapAction> {
    match LastIndexOf(q, '#')
    case Some(i) => New(q[i + 1..], Some(q[..i]))
    case None =>
      if Contains(q, "://") then New(q, None)
      else match LastIndexOf(q, '/')
        case Some(j) => New(q[j + 1..], Some(q[..j]))
        case None => New(q, None)
  }

  /** `get_qualified_name(separator)` */
  function QualifiedName(a: SoapAction, separator: string): (r: string)
    ensures a.namespace.Some? && |a.namespace.value| > 0 ==> r == a.namespace.value + separator + a.value
    ensures a.namespace.None? || a.namespace.value == "" ==> r == a.value
  {
    if a.namespace.Some? && |a.namespace.value| > 0 then a.namespace.value + separator + a.value
    else a.value
  }

  /** `str(action)` */
  function ToString(a: SoapAction): string {
    QualifiedName(a, "#")
  }

  /** `to_header_value(soap_version)`: quoted for "1.1", as-is otherwise. */
  function HeaderValue(a: SoapAction, soapVersion: string): (r: string)
    ensures soapVersion == "1.1" ==> r == "\"" + a.value + "\""
    ensures soapVersion != "1.1" ==> r == a.value
  {
    if soapVersion == "1.1" then "\"" + a.value + "\"" else a.value
  }

  /** `__eq__` */
  predicate Equals(a: SoapAction, b: SoapAction) {
    a.value == b.value && a.namespace == b.namespace
  }

  /** What `__hash__` hashes. */
  function HashKey(a: SoapAction): (string, Option<string>) {
    (a.value, a.namespace)
  }

  /** Qualified-name parsing splits at the last '#', else at the last '/' when no "://" occurs. */
  lemma QualifiedNameSplit(q: string)
    ensures match LastIndexOf(q, '#')
      case Some(i) => FromQualifiedName(q) == New(q[i + 1..], Some(q[..i]))
      case None =>
        if Contains(q, "://") || LastIndexOf(q, '/').None? then FromQualifiedName(q) == New(q, None)
        else FromQualifiedName(q) == New(q[LastIndexOf(q, '/').value + 1..], Some(q[..LastIndexOf(q, '/').value]))
  {
  }

  /** A trailing separator leaves an empty action, which the constructor rejects. */
  lemma TrailingSeparatorRejected(ns: string)
    ensures FromQualifiedName(ns + "#").Fail?
  {
    var q := ns + "#";
    assert q[|q| - 1] == '#';
    assert LastIndexOf(q, '#') == Some(|ns|);
  }

  /** The qualified name built with '#' parses back to the same action. */
  lemma {:induction false} QualifiedNameRoundTrip(a: SoapAction)
    requires New(a.value, a.namespace) == Ok(a)
    requires a.namespace.Some? && |a.namespace.value| > 0
    requires forall k :: 0 <= k < |a.value| ==> a.value[k] != '#'
    ensures FromQualifiedName(QualifiedName(a, "#")) == Ok(a)
  {
    var ns := a.namespace.value;
    var q := QualifiedName(a, "#");
    assert q == ns + "#" + a.value;
    assert q[|ns|] == '#';
    var i := LastIndexOf(q, '#');
    assert i.Some?;
    assert forall k :: |ns| < k < |q| ==> q[k] == a.value[k - |ns| - 1];
    assert i.value == |ns|;
    assert q[..|ns|] == ns;
    assert q[|ns| + 1..] == a.value;
  }

  /** Equality is exactly structural equality, and equal actions hash alike. */
  lemma EqualsIsStructural(a: SoapAction, b: SoapAction)
    ensures Equals(a, b) <==> a == b
    ensures Equals(a, b) ==> HashKey(a) == HashKey(b)
  {
  }
}
