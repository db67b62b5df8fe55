/** The optional value used wherever the C sources use a NULL pointer. */
module Options {
  datatype Option<+T> = None | Some(value: T)

  /** The larger of two optional positions; NULL is below every position. */
  function MaxOpt(a: Option<nat>, b: Option<nat>): (r: Option<nat>)
  {
    if b.Some? && (a.None? || a.value < b.value) then b else a
  }

  /** a is at or above position l. */
  predicate AtLeast(a: Option<nat>, l: nat) {
    a.Some? && l <= a.value
  }
}
