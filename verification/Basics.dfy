/** What several modules use. */
module Basics {
  datatype Option<+T> = None | Some(value: T)

  /** One if it holds, for counting. */
  ghost function One(b: bool): nat {
    if b then 1 else 0
  }

  predicate IsDigit(c: char) {
    '0' <= c <= '9'
  }
}
