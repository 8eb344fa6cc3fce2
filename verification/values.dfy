/** Python values as the machine stack sees them: optional results of a
    property lookup, the setting-instance state enumeration, and the two
    pieces of Python semantics the stack relies on (truthiness and ordering
    comparison against an int). */
module Values {

  /** A lookup result; None stands for Python's None. */
  datatype Option<T> = None | Some(value: T)

  /** The outcome of an operation that returns nothing or raises. */
  datatype Outcome<E> = Pass | Fail(error: E)

  /** How a setting instance got its value. */
  datatype InstanceState = Default | Calculated | User

  /** The values a setting property can hold. */
  datatype Value =
    | IntValue(i: int)
    | BoolValue(b: bool)
    | StrValue(s: string)
    | StateValue(state: InstanceState)

  /** Python truthiness of a lookup result: None, 0, False and "" are falsy. */
  predicate Truthy(v: Option<Value>)
  {
    match v
    case None => false
    case Some(IntValue(i)) => i != 0
    case Some(BoolValue(b)) => b
    case Some(StrValue(s)) => s != ""
    case Some(StateValue(_)) => true
  }

  /** The integer a value stands for when Python compares it with an int
      (a bool counts as 0 or 1); None where the comparison raises TypeError. */
  function AsNumber(v: Value): Option<int>
  {
    match v
    case IntValue(i) => Some(i)
    case BoolValue(b) => Some(if b then 1 else 0)
    case StrValue(_) => None
    case StateValue(_) => None
  }
}
