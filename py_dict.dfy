/**
 * Python's `dict()` conversion of Ansible values, shared by the action plugin's `dict(req)` and
 * ElementTree's `attrib.update(value)`, with the exceptions both raise for values that are no
 * mapping and no sequence of pairs.
 */
module PyDict {
  import opened Wrappers
  import opened Strings
  import opened Dicts
  import opened Values

  /** Python's name for the type of a value. */
  function TypeName(v: Value): string {
    match v
    case VNone => "NoneType"
    case VBool(_) => "bool"
    case VInt(_) => "int"
    case VStr(_) => "str"
    case VList(_) => "list"
    case VDict(_) => "dict"
  }

  /** The `TypeError` of iterating over a value that cannot be iterated. */
  function NotIterable(v: Value): Exception {
    TypeError("'" + TypeName(v) + "' object is not iterable")
  }

  /** The `TypeError` of using a list or a dict as a dict key. */
  function Unhashable(v: Value): Exception {
    TypeError("unhashable type: '" + TypeName(v) + "'")
  }

  /** The `ValueError` of a `dict()` argument item that is not a pair. */
  function WrongLength(i: nat, n: nat): Exception {
    ValueError("dictionary update sequence element #" + IntToString(i) + " has length " + IntToString(n) + "; 2 is required")
  }

  /**
   * Item `i` of a sequence given to `dict()`, read as a key and a value: it must itself iterate to
   * exactly two things, the first of them usable as a key.
   */
  function Pair(item: Value, i: nat): (r: Result<(string, Value)>)
    ensures item.VList? && |item.items| == 2 && item.items[0].VStr? ==> r == Ok((item.items[0].s, item.items[1]))
  {
    match item
    case VList(xs) =>
      if |xs| != 2 then Fail(WrongLength(i, |xs|))
      else if xs[0].VList? || xs[0].VDict? then Fail(Unhashable(xs[0]))
      else Ok((PyStr(xs[0]), xs[1]))
    case VStr(s) => if |s| != 2 then Fail(WrongLength(i, |s|)) else Ok(([s[0]], VStr([s[1]])))
    case VDict(es) => if |es| != 2 then Fail(WrongLength(i, |es|)) else Ok((es[0].0, VStr(es[1].0)))
    case _ => Fail(TypeError("cannot convert dictionary update sequence element #" + IntToString(i) + " to a sequence"))
  }

  /** `dict(items)` for a sequence of items: each pair assigned in turn, the first bad item raising. */
  function PairsDict(items: seq<Value>): Result<Dict<Value>> {
    if |items| == 0 then Ok([])
    else
      match PairsDict(items[..|items| - 1])
      case Fail(e) => Fail(e)
      case Ok(d) =>
        match Pair(items[|items| - 1], |items| - 1)
        case Fail(e) => Fail(e)
        case Ok(kv) => Ok(Set(d, kv.0, kv.1))
  }

  /**
   * `dict(v)`: a copy of a dict, or the dict a sequence of pairs spells out. `d.update(v)` accepts
   * the same arguments, raises the same errors and merges these entries in this order.
   */
  function DictOf(v: Value): (r: Result<Dict<Value>>)
    ensures v.VDict? ==> r == Ok(v.entries)
    ensures !v.VDict? && !v.VList? && !v.VStr? ==> r == Fail(NotIterable(v))
  {
    match v
    case VDict(entries) => Ok(entries)
    case VList(items) => PairsDict(items)
    case VStr(s) => if |s| == 0 then Ok([]) else Fail(WrongLength(0, 1))
    case _ => Fail(NotIterable(v))
  }

  /** Two-item lists, each a string key and its value. */
  function PairList(d: Dict<Value>): (r: seq<Value>)
    ensures |r| == |d|
  {
    seq(|d|, i requires 0 <= i < |d| => VList([VStr(d[i].0), d[i].1]))
  }

  /** A list of `[key, value]` pairs with distinct keys makes the dict holding exactly those entries, in order. */
  lemma {:induction false} PairsDictEntries(d: Dict<Value>)
    requires UniqueKeys(d)
    ensures DictOf(VList(PairList(d))) == Ok(d)
  {
    PairListEntries(d);
  }

  lemma {:induction false} PairListEntries(d: Dict<Value>)
    requires UniqueKeys(d)
    ensures PairsDict(PairList(d)) == Ok(d)
  {
    if |d| > 0 {
      var front := d[..|d| - 1];
      var last := d[|d| - 1];
      assert PairList(d)[..|d| - 1] == PairList(front);
      PairListEntries(front);
      assert Pair(PairList(d)[|d| - 1], |d| - 1) == Ok((last.0, last.1));
      forall j | 0 <= j < |front| ensures Keys(front)[j] != last.0 {
      }
      assert !HasKey(front, last.0);
      SetAbsent(front, last.0, last.1);
      assert front + [(last.0, last.1)] == d;
    }
  }
}
