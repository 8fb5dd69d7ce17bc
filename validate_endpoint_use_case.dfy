/**
 * Validating an endpoint from the application layer: its configuration first, then (on request)
 * whether it is reachable and whether it publishes a WSDL, whose operation names are pulled out
 * with a pattern search and de-duplicated.
 *
 * The repository is an interface: its reachability probe and its WSDL download are parameters.
 */
module ValidateEndpointUseCase {
  import opened Wrappers
  import opened Strings
  import opened Values
  import Endpoint
  import V = ValidationService

  /** `ValidateEndpointCommand` */
  datatype ValidateCommand = ValidateCommand(endpoint: Endpoint.Endpoint, checkConnectivity: bool, checkWsdl: bool,
                                             wsdlUrl: Option<string>)

  /** `ValidateEndpointResult` */
  datatype ValidateResult = ValidateResult(isValid: bool, isReachable: bool, hasWsdl: bool,
                                           validationErrors: Option<seq<string>>, wsdlOperations: Option<seq<string>>,
                                           errorMessage: Option<string>)

  /** The repository calls the use case makes: `validate_endpoint(url)` and `get_wsdl(url)`; either may raise. */
  datatype Repository = Repository(probe: string -> Result<bool>, getWsdl: string -> Result<Option<string>>)

  predicate Given(s: Option<string>) {
    s.Some? && |s.value| > 0
  }

  const ConfigInvalid := "Endpoint-Konfiguration ungültig"

  function ProbeFailed(e: Exception): string {
    "Connectivity-Check fehlgeschlagen: " + e.Message()
  }

  /** The WSDL address: the one given, else the endpoint's URL with "?wsdl" appended. */
  function WsdlUrl(c: ValidateCommand): (u: string)
    ensures Given(c.wsdlUrl) ==> u == c.wsdlUrl.value
    ensures !Given(c.wsdlUrl) ==> u == c.endpoint.url + "?wsdl"
  {
    if Given(c.wsdlUrl) then c.wsdlUrl.value else c.endpoint.url + "?wsdl"
  }

  // ---------------------------------------------------------------------------
  // _extract_operations_from_wsdl

  const OperationOpen := "<operation"
  const NameOpen := "name=\""

  /** The index of the first double quote at or after `r`. */
  function QuoteFrom(s: string, r: nat): (e: Option<nat>)
    ensures e.Some? ==> r <= e.value < |s| && s[e.value] == '"' && forall j :: r <= j < e.value ==> s[j] != '"'
    ensures e.None? ==> forall j :: r <= j < |s| ==> s[j] != '"'
    decreases |s| - r
  {
    if r >= |s| then None
    else if s[r] == '"' then Some(r)
    else QuoteFrom(s, r + 1)
  }

  /** `name="([^"]+)"` at index `q`: the name and the index after its closing quote. */
  function NameAt(s: string, q: nat): (m: Option<(string, nat)>)
    ensures m.Some? ==> q < m.value.1 <= |s| && IsName(m.value.0)
  {
    if q + |NameOpen| <= |s| && s[q..q + |NameOpen|] == NameOpen then
      match QuoteFrom(s, q + |NameOpen|)
      case Some(e) =>
        if e > q + |NameOpen| then Some((s[q + |NameOpen|..e], e + 1)) else None
      case None => None
    else None
  }

  /** A captured name: not empty and free of double quotes. */
  predicate IsName(n: string) {
    |n| > 0 && forall j :: 0 <= j < |n| ==> n[j] != '"'
  }

  /** `.*?name="([^"]+)"` from index `q`: the shortest run of non-newline characters before a name. */
  function LazyFrom(s: string, q: nat): (m: Option<(string, nat)>)
    ensures m.Some? ==> q < m.value.1 <= |s| && IsName(m.value.0)
    decreases |s| - q
  {
    match NameAt(s, q)
    case Some(n) => Some(n)
    case None => if q < |s| && s[q] != '\n' then LazyFrom(s, q + 1) else None
  }

  /** The pattern `<operation.*?name="([^"]+)"` matched at index `p`. */
  function MatchAt(s: string, p: nat): (m: Option<(string, nat)>)
    ensures m.Some? ==> p < m.value.1 <= |s| && IsName(m.value.0)
  {
    if p + |OperationOpen| <= |s| && s[p..p + |OperationOpen|] == OperationOpen then LazyFrom(s, p + |OperationOpen|)
    else None
  }

  /** `re.findall` from index `p`: the names of the non-overlapping matches, left to right. */
  function FindAll(s: string, p: nat): (names: seq<string>)
    ensures forall i :: 0 <= i < |names| ==> IsName(names[i])
    decreases |s| - p
  {
    if p >= |s| then []
    else match MatchAt(s, p)
      case Some(m) => [m.0] + FindAll(s, m.1)
      case None => FindAll(s, p + 1)
  }

  predicate NoDuplicates(xs: seq<string>) {
    forall i, j :: 0 <= i < j < |xs| ==> xs[i] != xs[j]
  }

  /**
   * `list(set(xs))`: each distinct element once. Python leaves the order unspecified; this keeps
   * the first occurrences in their order.
   */
  function Distinct(xs: seq<string>): (r: seq<string>)
    ensures NoDuplicates(r)
    ensures forall x :: x in r <==> x in xs
    decreases |xs|
  {
    if |xs| == 0 then []
    else
      var rest := Distinct(xs[..|xs| - 1]);
      var x := xs[|xs| - 1];
      assert forall y :: y in xs <==> y in xs[..|xs| - 1] || y == x by {
        assert xs == xs[..|xs| - 1] + [x];
      }
      if x in rest then rest else rest + [x]
  }

  /** `_extract_operations_from_wsdl` */
  function Operations(wsdl: string): seq<string> {
    Distinct(FindAll(wsdl, 0))
  }

  /** The operations are distinct names, exactly those the pattern finds. */
  lemma OperationsDistinctNames(wsdl: string)
    ensures NoDuplicates(Operations(wsdl))
    ensures forall i :: 0 <= i < |Operations(wsdl)| ==> IsName(Operations(wsdl)[i])
    ensures forall n :: n in Operations(wsdl) <==> n in FindAll(wsdl, 0)
  {
    var found := FindAll(wsdl, 0);
    forall i | 0 <= i < |Operations(wsdl)| ensures IsName(Operations(wsdl)[i]) {
      assert Operations(wsdl)[i] in found;
    }
  }

  // ---------------------------------------------------------------------------
  // execute

  /** The result past the configuration check: reachability when asked for, then the WSDL when asked for. */
  function Probed(repo: Repository, c: ValidateCommand): ValidateResult {
    var reach := if c.checkConnectivity then repo.probe(c.endpoint.url) else Ok(false);
    match reach
    case Fail(e) => ValidateResult(false, false, false, None, None, Some(ProbeFailed(e)))
    case Ok(reachable) =>
      var wsdl := if c.checkWsdl then repo.getWsdl(WsdlUrl(c)) else Ok(None);
      if wsdl.Ok? && Given(wsdl.value) then
        ValidateResult(true, reachable, true, None, Some(Operations(wsdl.value.value)), None)
      else ValidateResult(true, reachable, false, None, None, None)
  }

  /** What `execute` returns, given the errors the configuration check reports. */
  function Validate(repo: Repository, c: ValidateCommand, errors: seq<string>): ValidateResult {
    if |errors| > 0 then ValidateResult(false, false, false, Some(errors), None, Some(ConfigInvalid))
    else Probed(repo, c)
  }

  /** `execute` */
  method Execute(repo: Repository, c: ValidateCommand) returns (r: ValidateResult)
    ensures r == Validate(repo, c, V.EndpointErrors(c.endpoint))
  {
    var validation := V.ValidateEndpoint(c.endpoint);
    if !validation.isValid {
      return ValidateResult(false, false, false, Some(validation.errors), None, Some(ConfigInvalid));
    }
    r := Check(repo, c);
  }

  /** The checks of `execute` past the configuration check. */
  method Check(repo: Repository, c: ValidateCommand) returns (r: ValidateResult)
    ensures r == Probed(repo, c)
  {
    var reachable := false;
    if c.checkConnectivity {
      var probe := repo.probe(c.endpoint.url);
      if probe.Fail? {
        return ValidateResult(false, false, false, None, None, Some(ProbeFailed(probe.error)));
      }
      reachable := probe.value;
    }
    var hasWsdl := false;
    var operations: Option<seq<string>> := None;
    if c.checkWsdl {
      var content := repo.getWsdl(WsdlUrl(c));
      if content.Ok? && Given(content.value) {
        hasWsdl := true;
        operations := Some(Operations(content.value.value));
      }
    }
    r := ValidateResult(true, reachable, hasWsdl, None, operations, None);
  }

  /** An invalid configuration ends the use case before the repository is asked anything. */
  lemma InvalidConfigNotProbed(repo: Repository, other: Repository, c: ValidateCommand, errors: seq<string>)
    requires |errors| > 0
    ensures Validate(repo, c, errors) == ValidateResult(false, false, false, Some(errors), None, Some(ConfigInvalid))
    ensures Validate(other, c, errors) == Validate(repo, c, errors)
  {
  }

  /**
   * Reachability is probed only when asked for; a failing probe makes the endpoint invalid, while an
   * endpoint found unreachable stays valid.
   */
  lemma ProbeOnlyWhenAsked(repo: Repository, c: ValidateCommand, probe: string -> Result<bool>)
    ensures !c.checkConnectivity ==> Probed(repo.(probe := probe), c) == Probed(repo, c) && !Probed(repo, c).isReachable
    ensures c.checkConnectivity && repo.probe(c.endpoint.url).Fail? ==>
              Probed(repo, c) == ValidateResult(false, false, false, None, None, Some(ProbeFailed(repo.probe(c.endpoint.url).error)))
    ensures c.checkConnectivity && repo.probe(c.endpoint.url).Ok? ==>
              Probed(repo, c).isValid && Probed(repo, c).isReachable == repo.probe(c.endpoint.url).value
  {
  }

  /**
   * Past the configuration check, the outcome is valid exactly when no probe raised; the WSDL is
   * found exactly when it was asked for and its download gave non-empty content, and a failed
   * download changes nothing else.
   */
  lemma WsdlFound(repo: Repository, c: ValidateCommand, getWsdl: string -> Result<Option<string>>)
    ensures var r := Probed(repo, c);
            && (r.isValid <==> !(c.checkConnectivity && repo.probe(c.endpoint.url).Fail?))
            && (r.hasWsdl <==> r.isValid && c.checkWsdl && repo.getWsdl(WsdlUrl(c)).Ok? && Given(repo.getWsdl(WsdlUrl(c)).value))
            && (r.hasWsdl ==> r.wsdlOperations == Some(Operations(repo.getWsdl(WsdlUrl(c)).value.value)))
            && (!r.hasWsdl ==> r.wsdlOperations.None?)
    ensures !c.checkWsdl ==> Probed(repo.(getWsdl := getWsdl), c) == Probed(repo, c)
  {
  }

  // ---------------------------------------------------------------------------
  // to_dict

  function ListOrEmpty(xs: Option<seq<string>>): seq<string> {
    if xs.Some? then xs.value else []
  }

  /** `ValidateEndpointResult.to_dict` */
  function ResultToDict(r: ValidateResult): (d: seq<(string, Value)>)
    ensures |d| == 6
    ensures d[3] == ("validation_errors", V.StrList(ListOrEmpty(r.validationErrors)))
    ensures d[4] == ("wsdl_operations", V.StrList(ListOrEmpty(r.wsdlOperations)))
  {
    [("valid", VBool(r.isValid)), ("reachable", VBool(r.isReachable)), ("has_wsdl", VBool(r.hasWsdl)),
     ("validation_errors", V.StrList(ListOrEmpty(r.validationErrors))),
     ("wsdl_operations", V.StrList(ListOrEmpty(r.wsdlOperations))),
     ("error_message", if r.errorMessage.Some? then VStr(r.errorMessage.value) else VNone)]
  }

  /** The lists are never None in the dict: a missing one is the empty list. */
  lemma DictListsNeverNone(r: ValidateResult)
    ensures var d := ResultToDict(r);
            d[3].1.VList? && d[4].1.VList?
            && (r.validationErrors.None? ==> d[3].1.items == [])
            && (r.wsdlOperations.None? ==> d[4].1.items == [])
  {
  }
}
