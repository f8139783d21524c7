/** Optional values and failing results, standing in for Python's `None`
    and for exceptions that propagate out of a call. */
module Options {

  datatype Option<+T> = None | Some(value: T) {
    function GetOr(default: T): T {
      match this
      case Some(v) => v
      case None => default
    }
  }

  /** Why a call raised instead of returning. */
  datatype Failure =
    | NonNumericPercentile   // float() raised on a percentile token
    | MissingSiegeRate       // `None` formatted with `,.2f`
    | EscapeInBlock          // a block with a backslash, which `re.sub` reads as a template escape

  datatype Result<+T> = Ok(value: T) | Err(failure: Failure)
}
