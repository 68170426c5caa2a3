/**
 * The machine integers of the event path: 32-bit words as they leave the firmware buffer, 64-bit
 * timestamps and counters, and the two places where the width of the machine shows, namely
 * counters that wrap and the signed clock-tick offset of the fake generator.
 */
module Words {
  const TWO_16: int := 0x1_0000
  const TWO_32: int := 0x1_0000_0000
  const TWO_63: int := 0x8000_0000_0000_0000
  const TWO_64: int := 0x1_0000_0000_0000_0000

  type uint16 = x: int | 0 <= x < TWO_16
  type uint32 = x: int | 0 <= x < TWO_32
  type uint64 = x: int | 0 <= x < TWO_64
  type int64 = x: int | -TWO_63 <= x < TWO_63

  datatype Option<+T> = None | Some(value: T)

  /** Conversion to a 64-bit unsigned integer. */
  function Wrap64(n: int): uint64 {
    n % TWO_64
  }

  /** Conversion to a 32-bit unsigned word. */
  function Wrap32(n: int): uint32 {
    n % TWO_32
  }

  /** `++` on a 64-bit counter. */
  function Next(counter: uint64): uint64 {
    if counter == TWO_64 - 1 then 0 else counter + 1
  }

  /** What a 64-bit counter shows after counting `n` things from 0. */
  function Tally(n: nat): uint64 {
    if n == 0 then 0 else Next(Tally(n - 1))
  }

  /** A counter shows the true count modulo 2^64, so the true count itself until it wraps. */
  lemma {:induction false} TallyIsModulo(n: nat)
    ensures Tally(n) == Wrap64(n) == n % 0x1_0000_0000_0000_0000
    ensures n < 0x1_0000_0000_0000_0000 ==> Tally(n) == n
  {
    if n > 0 {
      TallyIsModulo(n - 1);
    }
  }

  lemma TallyNext(n: nat)
    ensures Tally(n + 1) == Next(Tally(n))
  {
  }

  /** Adding `n` to a counter in one step. */
  lemma TallyAdd(a: nat, n: nat)
    ensures Wrap64(Tally(a) + n) == Tally(a + n)
  {
    TallyIsModulo(a);
    TallyIsModulo(a + n);
  }

  function Max(a: int, b: int): int {
    if a < b then b else a
  }

  // ---------------------------------------------------------------------------------------------
  // Timestamps as two words
  // ---------------------------------------------------------------------------------------------

  function LowWord(timestamp: uint64): uint32 {
    timestamp % TWO_32
  }

  function HighWord(timestamp: uint64): uint32 {
    timestamp / TWO_32
  }

  /** The readout's `low | high << 32`; the halves are disjoint, so the OR is a sum (`JoinIsBitwiseOr`). */
  function JoinWords(low: uint32, high: uint32): uint64 {
    low + high * TWO_32
  }

  /** The arithmetic form above is the bitwise form of the source, for every pair of words. */
  lemma JoinIsBitwiseOr(low: bv32, high: bv32)
    ensures JoinWords(low as int, high as int) == ((low as bv64) | ((high as bv64) << 32)) as int
  {
    var joined := (low as bv64) | ((high as bv64) << 32);
    assert joined as int == low as int + (high as int) * 0x1_0000_0000;
  }

  /** A word made of two halves, in the bitwise form and as a number. */
  lemma HalvesOfWord(high: bv16, low: bv16)
    ensures (((high as bv32) << 16) | (low as bv32)) as int == (high as int) * 0x1_0000 + low as int
  {
  }

  /** Splitting and joining are inverse to each other: neither side loses a bit. */
  lemma SplitJoin(timestamp: uint64, low: uint32, high: uint32)
    ensures JoinWords(LowWord(timestamp), HighWord(timestamp)) == timestamp
    ensures JoinWords(low, high) == timestamp <==> (low == LowWord(timestamp) && high == HighWord(timestamp))
  {
  }

  // ---------------------------------------------------------------------------------------------
  // The clock-tick offset
  // ---------------------------------------------------------------------------------------------

  /** Adding a signed 64-bit offset to an unsigned 64-bit timestamp. */
  function ApplyOffset(timestamp: uint64, offset: int64): uint64 {
    Wrap64(timestamp + offset)
  }

  /** How often the addition leaves the 64-bit range: -1, 0 or 1. */
  function Carry(timestamp: uint64, offset: int64): (c: int)
    ensures -1 <= c <= 1
    ensures c == 0 <==> 0 <= timestamp + offset < TWO_64
    ensures ApplyOffset(timestamp, offset) == timestamp + offset - c * TWO_64
  {
    if timestamp + offset < 0 then -1 else if timestamp + offset < TWO_64 then 0 else 1
  }

  /** For a fixed offset, every timestamp is the image of exactly one estimate. */
  lemma OffsetIsBijective(offset: int64, image: uint64)
    ensures ApplyOffset(Wrap64(image - offset), offset) == image
    ensures forall t: uint64 :: ApplyOffset(t, offset) == image ==> t == Wrap64(image - offset)
  {
  }

  /** The offset keeps two estimates in order exactly when both wrap alike. */
  lemma OffsetKeepsOrder(a: uint64, b: uint64, offset: int64)
    requires a <= b
    ensures ApplyOffset(a, offset) <= ApplyOffset(b, offset) <==> Carry(a, offset) == Carry(b, offset)
  {
  }
}
