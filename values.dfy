/** The values Ansible hands to the modules: scalars, lists and (ordered) dicts. */
module Values {
  import opened Strings
  import opened Dicts

  datatype Value =
    | VNone
    | VBool(b: bool)
    | VInt(i: int)
    | VStr(s: string)
    | VList(items: seq<Value>)
    | VDict(entries: Dict<Value>)

  /** `bool(v)` */
  predicate Truthy(v: Value) {
    match v
    case VNone => false
    case VBool(b) => b
    case VInt(i) => i != 0
    case VStr(s) => |s| > 0
    case VList(xs) => |xs| > 0
    case VDict(es) => |es| > 0
  }

  /** `str(v)` */
  function PyStr(v: Value): string {
    match v
    case VStr(s) => s
    case _ => PyRepr(v)
  }

  /** `repr(v)`; strings are quoted with the quote Python picks, escaping backslashes, quotes and line breaks. */
  function PyRepr(v: Value): string
    decreases v, 1
  {
    match v
    case VNone => "None"
    case VBool(b) => if b then "True" else "False"
    case VInt(i) => IntToString(i)
    case VStr(s) => QuoteString(s)
    case VList(xs) => "[" + Join(", ", ReprItems(xs)) + "]"
    case VDict(es) => "{" + Join(", ", ReprEntries(es)) + "}"
  }

  function ReprItems(xs: seq<Value>): (r: seq<string>)
    ensures |r| == |xs|
    decreases xs, 0
  {
    if |xs| == 0 then [] else [PyRepr(xs[0])] + ReprItems(xs[1..])
  }

  function ReprEntries(es: Dict<Value>): (r: seq<string>)
    ensures |r| == |es|
    decreases es, 0
  {
    if |es| == 0 then []
    else
      var e := es[0];
      assert e in es && e.1 < e;
      [QuoteString(e.0) + ": " + PyRepr(e.1)] + ReprEntries(es[1..])
  }

  function QuoteString(s: string): string {
    if '\'' in s && '"' !in s then "\"" + Escape(s, '"') + "\""
    else "'" + Escape(s, '\'') + "'"
  }

  function Escape(s: string, quote: char): string {
    if |s| == 0 then ""
    else
      var c := s[0];
      (if c == '\\' then "\\\\"
       else if c == quote then ['\\', quote]
       else if c == '\n' then "\\n"
       else if c == '\r' then "\\r"
       else if c == '\t' then "\\t"
       else [c]) + Escape(s[1..], quote)
  }
}
