/** Shared small definitions. */
module Prelude {
  datatype Option<+T> = None | Some(value: T)

  /** How many ranges, checkpoints or views a report may list. */
  const MAX_RANGES: nat := 1000000

  function Min(a: int, b: int): int {
    if a < b then a else b
  }

  function Max(a: int, b: int): int {
    if a < b then b else a
  }

  ghost predicate Distinct(s: seq<int>) {
    forall i, j :: 0 <= i < j < |s| ==> s[i] != s[j]
  }

  /** Names an index: a quantifier that waits for it stays folded until a proof asks for that index. */
  ghost predicate At(i: int) {
    true
  }
}
