/**
  Leaf matching: a type marked `IsMatchEquality` (which demands `PartialEq`)
  matches by plain equality.  The marked types are `u128`, `char` and
  `bool`; the marker is modelled by the `(==)` type characteristic.
 */
module Matchers {

  /** Rust's `u128`. */
  newtype u128 = x: int | 0 <= x < 0x1_0000_0000_0000_0000_0000_0000_0000_0000

  /** The blanket `is_match` for equality-matched types. */
  function IsMatch<T(==)>(a: T, b: T): (r: bool)
    ensures r <==> a == b
  {
    a == b
  }

  /** Every leaf matches itself. */
  lemma MatchReflexive<T>(a: T)
    ensures IsMatch(a, a)
  {
  }

  /** Leaf matching does not depend on which side is the pattern. */
  lemma MatchSymmetric<T>(a: T, b: T)
    ensures IsMatch(a, b) == IsMatch(b, a)
  {
  }

  /** The three marked primitive types: each value matches itself and only itself. */
  lemma PrimitiveLeaves(c: char, d: char, p: bool, q: bool, x: u128, y: u128)
    ensures IsMatch(c, c) && IsMatch(p, p) && IsMatch(x, x)
    ensures IsMatch(c, d) <==> c == d
    ensures IsMatch(p, q) <==> p == q
    ensures IsMatch(x, y) <==> x == y
  {
  }
}
