/**
 * The value `json.loads` hands back, and the three Python operations the skill
 * applies to it without checking its type first: `key in v`, `v[key]` and `v[0]`.
 * Each answers `None` where Python would raise (`KeyError`, `IndexError`,
 * `TypeError`), so a caller can tell which `try` catches what.
 */
module Json {
  import opened Wrappers
  import opened PyText

  /** A decoded JSON document. Numbers are integers (see README). */
  datatype Json =
    | Null
    | Bool(b: bool)
    | Num(n: int)
    | Str(s: string)
    | Arr(items: seq<Json>)
    | Obj(fields: map<string, Json>)

  /** `key in v` for a string key: key of a dict, element of a list, substring of a str; other types raise. */
  function Contains(v: Json, key: string): (r: Option<bool>)
    ensures r.None? <==> !(v.Obj? || v.Arr? || v.Str?)
    ensures v.Obj? ==> r == Some(key in v.fields)
    ensures v.Arr? ==> r == Some(Str(key) in v.items)
  {
    match v
    case Obj(m) => Some(key in m)
    case Arr(items) => Some(Str(key) in items)
    case Str(s) => Some(IsInfix(key, s))
    case _ => None
  }

  /** `v[key]` for a string key: only a dict holding the key answers; all else raises. */
  function Lookup(v: Json, key: string): (r: Option<Json>)
    ensures r.Some? <==> v.Obj? && key in v.fields
    ensures r.Some? ==> r.value == v.fields[key]
  {
    if v.Obj? && key in v.fields then Some(v.fields[key]) else None
  }

  /** `v[0]`: the first element of a list, the first character of a str; a dict's keys are strings, so it raises. */
  function First(v: Json): (r: Option<Json>)
    ensures r.Some? <==> (v.Arr? && v.items != []) || (v.Str? && v.s != [])
    ensures v.Arr? && v.items != [] ==> r == Some(v.items[0])
  {
    match v
    case Arr(items) => if items == [] then None else Some(items[0])
    case Str(s) => if s == [] then None else Some(Str([s[0]]))
    case _ => None
  }

  predicate IsScalar(v: Json) {
    !(v.Arr? || v.Obj?)
  }

  /** `str(v)` for a scalar, as Python prints it. */
  function ScalarText(v: Json): string
    requires IsScalar(v)
  {
    match v
    case Null => "None"
    case Bool(b) => if b then "True" else "False"
    case Num(n) => IntText(n)
    case Str(s) => s
  }
}
