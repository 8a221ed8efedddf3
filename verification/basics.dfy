/** Small things several modules need. */
module Basics {

  const SECOND := 1_000_000_000
  const MINUTE := 60_000_000_000

  function Min(a: int, b: int): int {
    if a < b then a else b
  }

  lemma Associative<T>(a: seq<T>, b: seq<T>, c: seq<T>)
    ensures (a + b) + c == a + (b + c)
  {
  }
}
