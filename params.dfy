/**
 * Reading typed entries out of a parameter dict (`params.get(k)`, `params.get(k, default)`,
 * `params[k]`), for dicts whose entries have the types the modules' argument specs give them.
 */
module Params {
  import opened Wrappers
  import opened Dicts
  import opened Values

  /** The entry is absent, None or a string. */
  predicate StrOrNone(d: Dict<Value>, k: string) {
    Get(d, k).None? || Get(d, k).value.VNone? || Get(d, k).value.VStr?
  }

  /** The entry is absent or a string. */
  predicate StrIfPresent(d: Dict<Value>, k: string) {
    Get(d, k).None? || Get(d, k).value.VStr?
  }

  /** The entry is absent or an integer. */
  predicate IntIfPresent(d: Dict<Value>, k: string) {
    Get(d, k).None? || Get(d, k).value.VInt?
  }

  /** The entry is absent, None or a dict. */
  predicate DictOrNone(d: Dict<Value>, k: string) {
    Get(d, k).None? || Get(d, k).value.VNone? || Get(d, k).value.VDict?
  }

  /** Every value of the dict is a string. */
  predicate AllStr(es: Dict<Value>) {
    forall i :: 0 <= i < |es| ==> es[i].1.VStr?
  }

  /** Every item of the list is a string. */
  predicate AllStrItems(xs: seq<Value>) {
    forall i :: 0 <= i < |xs| ==> xs[i].VStr?
  }

  /** The entry is absent, None or a dict of strings. */
  predicate StrDictOrNone(d: Dict<Value>, k: string) {
    Get(d, k).None? || Get(d, k).value.VNone? || (Get(d, k).value.VDict? && AllStr(Get(d, k).value.entries))
  }

  /** The entry is absent, None or a list of strings. */
  predicate StrListOrNone(d: Dict<Value>, k: string) {
    Get(d, k).None? || Get(d, k).value.VNone? || (Get(d, k).value.VList? && AllStrItems(Get(d, k).value.items))
  }

  /** `d.get(k)` of a string entry: None when absent or None. */
  function OptStr(d: Dict<Value>, k: string): (r: Option<string>)
    requires StrOrNone(d, k)
    ensures r.Some? <==> HasKey(d, k) && Get(d, k).value.VStr?
    ensures r.Some? ==> Get(d, k) == Some(VStr(r.value))
  {
    if HasKey(d, k) && Get(d, k).value.VStr? then Some(Get(d, k).value.s) else None
  }

  /** `d.get(k, default)` of a string entry: the default only when the key is absent; a None entry stays None. */
  function StrDefault(d: Dict<Value>, k: string, default: string): (r: Option<string>)
    requires StrOrNone(d, k)
    ensures !HasKey(d, k) ==> r == Some(default)
    ensures HasKey(d, k) ==> r == OptStr(d, k)
  {
    if HasKey(d, k) then OptStr(d, k) else Some(default)
  }

  /** `d.get(k, default)` of an entry that is a string whenever present. */
  function Str(d: Dict<Value>, k: string, default: string): (r: string)
    requires StrIfPresent(d, k)
    ensures !HasKey(d, k) ==> r == default
    ensures HasKey(d, k) ==> Get(d, k) == Some(VStr(r))
  {
    if HasKey(d, k) then Get(d, k).value.s else default
  }

  /** `d.get(k, default)` of an entry that is an integer whenever present. */
  function Int(d: Dict<Value>, k: string, default: int): (r: int)
    requires IntIfPresent(d, k)
    ensures !HasKey(d, k) ==> r == default
    ensures HasKey(d, k) ==> Get(d, k) == Some(VInt(r))
  {
    if HasKey(d, k) then Get(d, k).value.i else default
  }

  /** `d[k]` of a string entry: KeyError when absent. */
  function StrItem(d: Dict<Value>, k: string): (r: Result<Option<string>>)
    requires StrOrNone(d, k)
    ensures r.Fail? <==> !HasKey(d, k)
    ensures r.Fail? ==> r.error == KeyError(k)
    ensures r.Ok? ==> r.value == OptStr(d, k)
  {
    if HasKey(d, k) then Ok(OptStr(d, k)) else Fail(KeyError(k))
  }

  /** A dict of strings as the strings it holds. */
  function StrValues(es: Dict<Value>): (r: Dict<string>)
    requires AllStr(es)
    ensures |r| == |es| && forall i :: 0 <= i < |es| ==> r[i] == (es[i].0, es[i].1.s)
  {
    if |es| == 0 then [] else [(es[0].0, es[0].1.s)] + StrValues(es[1..])
  }

  /** A list of strings as the strings it holds. */
  function StrItems(xs: seq<Value>): (r: seq<string>)
    requires AllStrItems(xs)
    ensures |r| == |xs| && forall i :: 0 <= i < |xs| ==> r[i] == xs[i].s
  {
    if |xs| == 0 then [] else [xs[0].s] + StrItems(xs[1..])
  }

  /** A dict-of-strings entry, `{}` when absent or None. */
  function StrDict(d: Dict<Value>, k: string): (r: Dict<string>)
    requires StrDictOrNone(d, k)
    ensures Get(d, k).Some? && Get(d, k).value.VDict? ==> r == StrValues(Get(d, k).value.entries)
    ensures !(Get(d, k).Some? && Get(d, k).value.VDict?) ==> r == []
  {
    if HasKey(d, k) && Get(d, k).value.VDict? then StrValues(Get(d, k).value.entries) else []
  }

  /** A list-of-strings entry, `[]` when absent or None. */
  function StrList(d: Dict<Value>, k: string): (r: seq<string>)
    requires StrListOrNone(d, k)
    ensures Get(d, k).Some? && Get(d, k).value.VList? ==> r == StrItems(Get(d, k).value.items)
    ensures !(Get(d, k).Some? && Get(d, k).value.VList?) ==> r == []
  {
    if HasKey(d, k) && Get(d, k).value.VList? then StrItems(Get(d, k).value.items) else []
  }

  /** A nested dict entry, `{}` when absent. */
  function SubDict(d: Dict<Value>, k: string): (r: Dict<Value>)
    requires DictOrNone(d, k)
    ensures Get(d, k).Some? && Get(d, k).value.VDict? ==> r == Get(d, k).value.entries
    ensures !(Get(d, k).Some? && Get(d, k).value.VDict?) ==> r == []
  {
    if HasKey(d, k) && Get(d, k).value.VDict? then Get(d, k).value.entries else []
  }
}
