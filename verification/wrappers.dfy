/** The optional-value datatype used for JavaScript's `undefined`/`null`. */
module Wrappers {

  /** `None` stands for an absent (`undefined` or `null`) value. */
  datatype Option<+T> = None | Some(value: T)

  function Min(a: int, b: int): int
  {
    if a <= b then a else b
  }
}
