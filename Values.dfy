/** The loosely typed records the itinerary code passes around: JSON-like
    dictionaries whose values are `None`, numbers or strings. */
module Values {
  import opened Wrappers
  import Text

  datatype Value = Null | Num(n: real) | Str(s: string)

  /** A venue (hotel, tour or attraction) or any other flat record. */
  type Record = map<string, Value>

  /** `d.get(key)`: `None` when the key is absent. */
  function Get(d: Record, key: string): (v: Value)
    ensures key !in d ==> v == Null
    ensures key in d ==> v == d[key]
  {
    if key in d then d[key] else Null
  }

  /** `d.get(key, default)`. */
  function GetOr(d: Record, key: string, default: Value): (v: Value)
    ensures key !in d ==> v == default
    ensures key in d ==> v == d[key]
  {
    if key in d then d[key] else default
  }

  /** Python truthiness of a value. */
  predicate Truthy(v: Value)
  {
    match v
    case Null => false
    case Num(n) => n != 0.0
    case Str(s) => s != ""
  }

  /** Python's `a or b`: `a` when it is truthy, otherwise `b`. */
  function Or(a: Value, b: Value): (r: Value)
    ensures Truthy(a) ==> r == a
    ensures !Truthy(a) ==> r == b
  {
    if Truthy(a) then a else b
  }

  /** `float(v)`: `None` stands for the `TypeError` (on `None`) or
      `ValueError` (on a non-numeric string) Python raises. */
  function ToFloat(v: Value): (r: Option<real>)
    ensures v.Null? ==> r.None?
    ensures v.Num? ==> r == Some(v.n)
  {
    match v
    case Null => None
    case Num(n) => Some(n)
    case Str(s) => Text.ParseFloat(s)
  }
}
