/** Types shared by every component of the model. */
module Types {

  /** A UUID. Only its identity matters (and, in the issue list, its order), so it is a number. */
  type Uuid = nat

  /** An instant, counted in the unit the component uses (seconds for the outbox and the limiter). */
  type Time = nat

  datatype Option<+T> = None | Some(value: T)

  datatype Result<+T, +E> = Ok(value: T) | Err(error: E)

  function Min(a: int, b: int): int { if a <= b then a else b }
}
