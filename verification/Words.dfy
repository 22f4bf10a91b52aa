/** 64-bit words, represented by the positions of their one-bits, with the machine operations
    the cron package uses on them. */
module Words {

  type Word = w: set<int> | forall i :: i in w ==> 0 <= i < 64

  const ZERO: Word := {}
  const ONE: Word := {0}
  const MAX: Word := set i | 0 <= i < 64

  /** The bit set when a field was written as a star. */
  const STAR_BIT: Word := {63}

  function And(a: Word, b: Word): Word { a * b }

  function Or(a: Word, b: Word): Word { a + b }

  function Not(a: Word): Word { MAX - a }

  /** Shift left, dropping the bits that leave the word. */
  function Shl(a: Word, k: nat): Word { set i | i in a && i + k < 64 :: i + k }

  /** The test `1<<i & w > 0`. */
  predicate HasBit(w: Word, i: nat)
    ensures HasBit(w, i) <==> i in w
  {
    assert forall j :: j in Shl(ONE, i) ==> j == i;
    assert i in w ==> 0 in ONE && 0 + i in Shl(ONE, i) && i in And(Shl(ONE, i), w);
    And(Shl(ONE, i), w) != ZERO
  }
}
