/**
 * The emulated signal maps of the fake generator. A signal map is a 32-bit mask; the random
 * engine is an arbitrary sequence of draws from each of its two distributions.
 */
module SignalMaps {
  import opened Words
  import opened BitVectors

  const SIGNALS: nat := 32
  const ALL_SIGNALS: bv32 := 0xffff_ffff

  /** A signal number as a shift amount. */
  function Shift(i: nat): (k: bv6)
    requires i < SIGNALS
    ensures k < 32 && k as int == i
  {
    i as bv6
  }

  /** Signals are counted from the lowest bit upwards. */
  lemma SignalsInOrder(bits: bv32, i: nat)
    requires i + 1 < SIGNALS
    ensures IsSet(bits, 0) <==> bits & 1 == 1
    ensures IsSet(bits, i + 1) <==> IsSet(bits >> 1, i)
  {
    assert Shift(i + 1) == Shift(i) + 1;
    ShiftTwice(bits, Shift(i));
  }

  /** The map with signal `i` alone. */
  function Signal(i: nat): bv32
    requires i < SIGNALS
  {
    (1 as bv32) << Shift(i)
  }

  /** Bit `i` of a map is one. */
  predicate IsSet(bits: bv32, i: nat)
    requires i < SIGNALS
  {
    (bits >> Shift(i)) & 1 == 1
  }

  /** No bit of `a` is outside `b`. */
  predicate Subset(a: bv32, b: bv32) {
    a & b == a
  }

  lemma ShiftedBits(bits: bv32, k: bv6, l: bv6)
    requires k < 32 && l < 32
    ensures ((bits | ((1 as bv32) << k)) >> l) & 1 == 1 <==> (bits >> l) & 1 == 1 || k == l
    ensures ((0 as bv32) >> l) & 1 == 0
  {
  }

  lemma NothingSet(i: nat)
    requires i < SIGNALS
    ensures !IsSet(0, i)
  {
    ShiftedBits(0, Shift(i), Shift(i));
  }

  lemma SetSignalAt(bits: bv32, i: nat, j: nat)
    requires i < SIGNALS && j < SIGNALS
    ensures IsSet(bits | Signal(i), j) <==> IsSet(bits, j) || j == i
  {
    hide Shift;
    ShiftedBits(bits, Shift(i), Shift(j));
  }

  /** Switching on signal `i` changes no other. */
  lemma SetSignal(bits: bv32, i: nat)
    requires i < SIGNALS
    ensures forall j :: 0 <= j < SIGNALS ==> (IsSet(bits | Signal(i), j) <==> IsSet(bits, j) || j == i)
  {
    hide *;
    forall j: nat | 0 <= j < SIGNALS
      ensures IsSet(bits | Signal(i), j) <==> IsSet(bits, j) || j == i
    {
      SetSignalAt(bits, i, j);
    }
  }

  /** Masking keeps exactly the enabled signals, and is empty exactly when no active signal is enabled. */
  lemma Masking(bits: bv32, enabled: bv32)
    ensures Subset(bits & enabled, bits) && Subset(bits & enabled, enabled)
    ensures forall other :: Subset(other, bits) && Subset(other, enabled) ==> Subset(other, bits & enabled)
  {
  }

  /** Bit by bit, a masked map holds the signals that are both active and enabled. */
  lemma MaskedAt(bits: bv32, enabled: bv32, i: nat)
    requires i < SIGNALS
    ensures IsSet(bits & enabled, i) <==> IsSet(bits, i) && IsSet(enabled, i)
  {
    hide Shift;
    var k := Shift(i);
    if IsSet(bits & enabled, i) {
      BitOfAnd(bits, enabled, k);
    }
    if IsSet(bits, i) && IsSet(enabled, i) {
      AndOfBits(bits, enabled, k);
    }
  }

  lemma SomeSignal(bits: bv32) returns (i: nat)
    requires bits != 0
    ensures i < SIGNALS && IsSet(bits, i)
  {
    var k := SomeBit(bits);
    i := k as nat;
    assert Shift(i) == k;
  }

  /** Some signal is in both maps. */
  ghost predicate Meet(a: bv32, b: bv32) {
    exists i :: 0 <= i < 32 && IsSet(a, i) && IsSet(b, i)
  }

  /** A masked map is empty exactly when no active signal is enabled. */
  lemma MeetExactly(bits: bv32, enabled: bv32)
    ensures bits & enabled != 0 <==> Meet(bits, enabled)
  {
    hide IsSet;
    if Meet(bits, enabled) {
      var i :| 0 <= i < 32 && IsSet(bits, i) && IsSet(enabled, i);
      MaskedAt(bits, enabled, i);
      NothingSet(i);
    } else if bits & enabled != 0 {
      var i := SomeSignal(bits & enabled);
      MaskedAt(bits, enabled, i);
    }
  }

  /** A signal map as one of the words of an event or a frame. */
  function WordOf(bits: bv32): uint32 {
    bits as int
  }

  /** The signal map in a word. */
  function BitsOf(word: uint32): bv32 {
    word as bv32
  }

  class RandomEngine {
    const poisson: nat -> uint64
    const uniform: nat -> bv32
    var poissonDraws: nat
    var uniformDraws: nat

    constructor (poisson: nat -> uint64, uniform: nat -> bv32)
      ensures this.poisson == poisson && this.uniform == uniform
      ensures poissonDraws == uniformDraws == 0
    {
      this.poisson, this.uniform := poisson, uniform;
      poissonDraws, uniformDraws := 0, 0;
    }

    method DrawPoisson() returns (value: uint64)
      modifies this`poissonDraws
      ensures value == poisson(old(poissonDraws)) && poissonDraws == old(poissonDraws) + 1
    {
      value := poisson(poissonDraws);
      poissonDraws := poissonDraws + 1;
    }

    method DrawUniform() returns (value: bv32)
      modifies this`uniformDraws
      ensures value == uniform(old(uniformDraws)) && uniformDraws == old(uniformDraws) + 1
    {
      value := uniform(uniformDraws);
      uniformDraws := uniformDraws + 1;
    }
  }

  /** Draw number `i` after `start` is not zero. */
  predicate Fires(poisson: nat -> uint64, start: nat, i: nat) {
    poisson(start + i) != 0
  }

  /** What each emulation mode promises of a map drawn after so many draws of either kind. */
  ghost predicate MapInMode(
    mode: uint32, bits: bv32, poisson: nat -> uint64, poissonDraws: nat, uniform: nat -> bv32, uniformDraws: nat)
  {
    && (mode == 0 ==> bits == ALL_SIGNALS)
    && (mode == 1 ==> forall i :: 0 <= i < SIGNALS ==> (IsSet(bits, i) <==> Fires(poisson, poissonDraws, i)))
    && (mode == 2 ==> bits == uniform(uniformDraws))
    && (mode > 2 ==> bits == 0)
  }

  /** How many draws `maps` signal maps take from the first distribution. */
  function PoissonDraws(mode: uint32, maps: nat): nat {
    if mode == 1 then SIGNALS * maps else 0
  }

  /** How many draws `maps` signal maps take from the second distribution. */
  function UniformDraws(mode: uint32, maps: nat): nat {
    if mode == 2 then maps else 0
  }

  lemma NoMaps(mode: uint32)
    ensures PoissonDraws(mode, 0) == 0 && UniformDraws(mode, 0) == 0
  {
  }

  lemma OneMoreMap(mode: uint32, maps: nat)
    ensures PoissonDraws(mode, maps + 1) == PoissonDraws(mode, maps) + PoissonDraws(mode, 1)
    ensures UniformDraws(mode, maps + 1) == UniformDraws(mode, maps) + UniformDraws(mode, 1)
  {
  }

  method GenerateSignalMap(mode: uint32, engine: RandomEngine) returns (bits: bv32)
    modifies engine
    ensures MapInMode(mode, bits, engine.poisson, old(engine.poissonDraws), engine.uniform, old(engine.uniformDraws))
    ensures engine.poissonDraws == old(engine.poissonDraws) + PoissonDraws(mode, 1)
    ensures engine.uniformDraws == old(engine.uniformDraws) + UniformDraws(mode, 1)
  {
    hide Signal, IsSet;
    bits := 0;
    match mode {
      case 0 =>
        bits := ALL_SIGNALS;
      case 1 =>
        var i := 0;
        forall j: nat | 0 <= j < SIGNALS
          ensures !IsSet(0, j)
        {
          NothingSet(j);
        }
        while i < SIGNALS
          invariant 0 <= i <= SIGNALS
          invariant engine.poissonDraws == old(engine.poissonDraws) + i
          invariant engine.uniformDraws == old(engine.uniformDraws)
          invariant forall j :: 0 <= j < SIGNALS ==>
                                  (IsSet(bits, j) <==> j < i && Fires(engine.poisson, old(engine.poissonDraws), j))
        {
          var draw := engine.DrawPoisson();
          assert draw != 0 <==> Fires(engine.poisson, old(engine.poissonDraws), i);
          ghost var before := bits;
          if draw != 0 {
            SetSignal(bits, i);
            bits := bits | Signal(i);
          }
          assert forall j :: 0 <= j < SIGNALS ==> (IsSet(bits, j) <==> IsSet(before, j) || (j == i && draw != 0));
          i := i + 1;
        }
      case 2 =>
        bits := engine.DrawUniform();
      case _ =>
        bits := 0;
    }
  }
}
