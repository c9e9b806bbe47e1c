/** What several modules share: an optional value, and schedules. */
module Wrappers {
  datatype Option<+T> = None | Some(value: T)

  /** The schedule that attempts `steps` in turn, and `rest` from then on. */
  function Play<T>(steps: seq<T>, rest: T): nat -> T {
    (n: nat) => if n < |steps| then steps[n] else rest
  }
}
