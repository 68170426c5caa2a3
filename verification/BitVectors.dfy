/** The few facts about single bits of a 32-bit map that signal maps need. */
module BitVectors {
  lemma BitOfAnd(a: bv32, b: bv32, k: bv6)
    requires k < 32
    requires ((a & b) >> k) & 1 == 1
    ensures (a >> k) & 1 == 1 && (b >> k) & 1 == 1
  {
  }

  lemma AndOfBits(a: bv32, b: bv32, k: bv6)
    requires k < 32
    requires (a >> k) & 1 == 1 && (b >> k) & 1 == 1
    ensures ((a & b) >> k) & 1 == 1
  {
  }

  lemma ShiftTwice(bits: bv32, k: bv6)
    requires k < 31
    ensures bits >> (k + 1) == (bits >> 1) >> k
  {
  }

  predicate IsOne(bits: bv32, k: bv6)
    requires k < 32
  {
    (bits >> k) & 1 == 1
  }

  predicate SomeFrom(bits: bv32, k: bv6)
    requires k < 32
  {
    bits >> k != 0
  }

  /** If bit `k` is clear in a map that has a bit from `k` on, `k` is not the last and there is one from the next on. */
  lemma SomeAbove(bits: bv32, k: bv6)
    requires k < 32 && SomeFrom(bits, k) && !IsOne(bits, k)
    ensures k < 31 && SomeFrom(bits, k + 1)
  {
  }

  lemma {:induction false} SomeBitFrom(bits: bv32, k: bv6) returns (l: bv6)
    requires k < 32 && SomeFrom(bits, k)
    ensures l < 32 && IsOne(bits, l)
    decreases 32 - k
  {
    hide *;
    l := k;
    if !IsOne(bits, k) {
      SomeAbove(bits, k);
      l := SomeBitFrom(bits, k + 1);
    }
  }

  /** A map that is not empty has a bit. */
  lemma SomeBit(bits: bv32) returns (k: bv6)
    requires bits != 0
    ensures k < 32 && (bits >> k) & 1 == 1
  {
    assert SomeFrom(bits, 0);
    k := SomeBitFrom(bits, 0);
  }
}
