/**
 * The history of firmware-buffer occupancies: a deque that forgets its oldest entry. The guard
 * compares the size with 1000 before the push, so the deque really holds up to 1001 counts.
 */
module BufferHistory {
  import opened Words
  import opened RealArithmetic

  const GUARD: nat := 1000
  const CAPACITY: nat := 1001

  /** All integers up to this bound are exact in a double. */
  const EXACT_IN_DOUBLE: int := 0x20_0000_0000_0000

  /** The last `CAPACITY` counts of a history. */
  function Window(history: seq<uint16>): (window: seq<uint16>)
    ensures |window| == if |history| < CAPACITY then |history| else CAPACITY
    ensures forall i :: 0 <= i < |window| ==> window[i] == history[|history| - |window| + i]
  {
    if |history| <= CAPACITY then history else history[|history| - CAPACITY..]
  }

  function Sum(counts: seq<uint16>): nat {
    if |counts| == 0 then 0 else Sum(counts[..|counts| - 1]) + counts[|counts| - 1]
  }

  lemma SumOfOne(count: uint16)
    ensures Sum([count]) == count
  {
  }

  /** Sums add up, wherever a sequence of counts is cut. */
  lemma {:induction false} SumConcat(a: seq<uint16>, b: seq<uint16>)
    ensures Sum(a + b) == Sum(a) + Sum(b)
  {
    if |b| == 0 {
      assert a + b == a;
    } else {
      var n := |b| - 1;
      SumConcat(a, b[..n]);
      assert (a + b)[..|a + b| - 1] == a + b[..n];
    }
  }

  /** The sum of a sequence is its count at any position and the sums of what is before and after it. */
  lemma SumAround(counts: seq<uint16>, k: nat)
    requires k < |counts|
    ensures Sum(counts) == Sum(counts[..k]) + counts[k] + Sum(counts[k + 1..])
  {
    assert counts == counts[..k] + [counts[k]] + counts[k + 1..];
    SumConcat(counts[..k] + [counts[k]], counts[k + 1..]);
    SumConcat(counts[..k], [counts[k]]);
    SumOfOne(counts[k]);
  }

  ghost predicate Within(counts: seq<uint16>, low: int, high: int) {
    forall i :: 0 <= i < |counts| ==> low <= counts[i] <= high
  }

  /** The sum of `n` counts that are all equal to `bound`. */
  function Scaled(bound: int, n: nat): real {
    bound as real * n as real
  }

  lemma OneMoreCount(bound: int, n: nat)
    ensures Scaled(bound, n + 1) == Scaled(bound, n) + bound as real
  {
    OneMoreTimes(bound as real, n as real);
  }

  /** A sum lies between any bounds on its terms, times their number. */
  lemma {:induction false} SumWithin(counts: seq<uint16>, low: int, high: int)
    requires Within(counts, low, high)
    ensures Scaled(low, |counts|) <= Sum(counts) as real <= Scaled(high, |counts|)
  {
    if |counts| > 0 {
      hide Scaled;
      var n := |counts| - 1;
      SumWithin(counts[..n], low, high);
      OneMoreCount(low, n);
      OneMoreCount(high, n);
    }
  }

  /** No partial sum of a window leaves the range in which doubles are exact. */
  lemma PartialSumsAreExact(history: seq<uint16>, i: nat)
    requires i <= |Window(history)|
    ensures Sum(Window(history)[..i]) <= CAPACITY * (TWO_16 - 1) < EXACT_IN_DOUBLE
  {
    SumAtMost(Window(history)[..i]);
  }

  lemma {:induction false} SumAtMost(counts: seq<uint16>)
    ensures Sum(counts) <= |counts| * (TWO_16 - 1)
  {
    if |counts| > 0 {
      SumAtMost(counts[..|counts| - 1]);
    }
  }

  function Mean(counts: seq<uint16>): real
    requires |counts| > 0
  {
    Sum(counts) as real / |counts| as real
  }

  /** The mean lies between any bounds on the counts. */
  lemma MeanWithin(counts: seq<uint16>, low: int, high: int)
    requires |counts| > 0 && Within(counts, low, high)
    ensures low as real <= Mean(counts) <= high as real
  {
    SumWithin(counts, low, high);
    QuotientBetween(low as real, Sum(counts) as real, high as real, |counts| as real);
  }

  lemma MeanTimesSize(counts: seq<uint16>)
    requires |counts| > 0
    ensures Mean(counts) * |counts| as real == Sum(counts) as real
  {
    QuotientTimes(Sum(counts) as real, |counts| as real);
  }

  /** Every count has the same weight: changing any one of `n` counts moves the mean by an n-th of the change. */
  lemma MeanWeighsAlike(counts: seq<uint16>, k: nat, count: uint16)
    requires k < |counts|
    ensures Mean(counts[k := count]) * |counts| as real == Mean(counts) * |counts| as real + (count - counts[k]) as real
  {
    hide Mean, Sum;
    var changed := counts[k := count];
    SumAround(counts, k);
    SumAround(changed, k);
    assert changed[..k] == counts[..k] && changed[k + 1..] == counts[k + 1..];
    MeanTimesSize(counts);
    MeanTimesSize(changed);
  }

  /**
   * The moving average of a history: a new count comes in at the full weight and, once there have been
   * 1001 of them, the one 1001 pushes ago goes out.
   */
  lemma WindowMoves(history: seq<uint16>, count: uint16)
    ensures var before, after := Window(history), Window(history + [count]);
            && |after| == (if |history| < 1001 then |history| + 1 else 1001)
            && Sum(after) == Sum(before) + count - if |history| < 1001 then 0 else history[|history| - 1001]
  {
    hide Sum, Window;
    var before, after := Window(history), Window(history + [count]);
    SumOfOne(count);
    if |history| < 1001 {
      assert after == before + [count];
      SumConcat(before, [count]);
    } else {
      assert before == [before[0]] + before[1..] && after == before[1..] + [count];
      SumOfOne(before[0]);
      SumConcat([before[0]], before[1..]);
      SumConcat(before[1..], [count]);
    }
  }
}
