/** The scalar JSON values that reach the core through request bodies and progress lines, with the
    three Python operations the core applies to them: truthiness (`if x:`), `str(x)` and
    `isinstance(x, int)`. */
module PyValue {
  import opened Wrappers
  import Text

  /** A decoded JSON scalar. `Null` also stands for a key that is absent (`dict.get` yields `None` for both).
      A float carries Python's own rendering of it, `repr`, since float formatting is outside the model. */
  datatype Value =
    | Null
    | Bool(b: bool)
    | Int(i: int)
    | Float(x: real, repr: string)
    | Str(s: string)

  /** Python truthiness: `None`, `False`, `0`, `0.0` and `""` are false, everything else true. */
  predicate Truthy(v: Value) {
    match v
    case Null => false
    case Bool(b) => b
    case Int(i) => i != 0
    case Float(x, _) => x != 0.0
    case Str(s) => s != ""
  }

  /** `str(v)`: an integer renders as digits that read back as it, a string as itself. */
  function Render(v: Value): (r: string)
    ensures v.Int? ==> Text.ParseInt(r) == Some(v.i)
    ensures v.Str? ==> r == v.s
  {
    match v
    case Null => "None"
    case Bool(b) => if b then "True" else "False"
    case Int(i) => Text.IntRoundTrip(i); Text.IntToString(i)
    case Float(_, repr) => repr
    case Str(s) => s
  }

  /** `isinstance(v, int)` and the integer it then is: Python's `bool` is a subclass of `int`,
      so `True` is the integer 1 and `False` the integer 0. */
  function AsInt(v: Value): (r: Option<int>)
    ensures r.Some? <==> v.Int? || v.Bool?
    ensures v.Int? ==> r == Some(v.i)
  {
    match v
    case Int(i) => Some(i)
    case Bool(b) => Some(if b then 1 else 0)
    case _ => None
  }

  /** `v == 1` under Python's numeric equality (`True == 1` and `1.0 == 1` both hold). */
  predicate EqualsOne(v: Value) {
    AsInt(v) == Some(1) || (v.Float? && v.x == 1.0)
  }
}
