/**
 * The plain values the application puts into log contexts and exception
 * details, with Python's `str()` of each.
 */
module Values {
  import opened Text

  datatype Scalar = Str(s: string) | Int(i: int) | Bool(b: bool) | NoneValue

  /** `str(v)` (and equally `f"{v}"`). */
  function Display(v: Scalar): string
  {
    match v
    case Str(s) => s
    case Int(i) => IntToString(i)
    case Bool(b) => if b then "True" else "False"
    case NoneValue => "None"
  }
}
