/** The dynamically typed values that travel through the bot's keyword
    dictionaries (`from_user.__dict__`, validated user data, the
    identifier stored in a not-found error), with Python's `str()` and
    truthiness on them. */
module Values {
  import Decimal

  datatype Value = IntVal(i: int) | StrVal(s: string) | BoolVal(b: bool) | NoneVal

  /** Python's `str(v)`, as used by f-strings. */
  function Str(v: Value): string {
    match v
    case IntVal(i) => Decimal.IntToString(i)
    case StrVal(s) => s
    case BoolVal(b) => if b then "True" else "False"
    case NoneVal => "None"
  }

  /** Python's truth test `if v:`. */
  predicate Truthy(v: Value) {
    match v
    case IntVal(i) => i != 0
    case StrVal(s) => s != ""
    case BoolVal(b) => b
    case NoneVal => false
  }
}
