/**
 * Subsequences picked by a mask. Acceptance of events, loss of raw frames and masking of
 * generated signal maps are all of this kind.
 */
module Subsequences {

  /** The elements of `s` whose mark is set, in order. */
  function Kept<T>(s: seq<T>, keep: seq<bool>): (r: seq<T>)
    requires |s| == |keep|
    ensures |r| <= |s|
  {
    if |s| == 0 then []
    else
      var init := Kept(s[..|s| - 1], keep[..|s| - 1]);
      if keep[|s| - 1] then init + [s[|s| - 1]] else init
  }

  /** The positions whose mark is set, in order. */
  function MarkedPositions(keep: seq<bool>): (positions: seq<nat>)
    ensures forall j :: 0 <= j < |positions| ==> positions[j] < |keep| && keep[positions[j]]
    ensures forall i, j :: 0 <= i < j < |positions| ==> positions[i] < positions[j]
    ensures forall i :: 0 <= i < |keep| && keep[i] ==> i in positions
  {
    if |keep| == 0 then []
    else
      var init := MarkedPositions(keep[..|keep| - 1]);
      if keep[|keep| - 1] then init + [|keep| - 1] else init
  }

  /** `Kept` takes each marked element once, in the order of the original, and invents none. */
  lemma {:induction false} KeptReadsMarkedPositions<T>(s: seq<T>, keep: seq<bool>)
    requires |s| == |keep|
    ensures |Kept(s, keep)| == |MarkedPositions(keep)|
    ensures forall j :: 0 <= j < |Kept(s, keep)| ==> Kept(s, keep)[j] == s[MarkedPositions(keep)[j]]
  {
    if s != [] {
      KeptReadsMarkedPositions(s[..|s| - 1], keep[..|s| - 1]);
    }
  }

  lemma KeptAppend<T>(s: seq<T>, keep: seq<bool>, x: T, mark: bool)
    requires |s| == |keep|
    ensures Kept(s + [x], keep + [mark]) == Kept(s, keep) + if mark then [x] else []
  {
  }

  lemma {:induction false} KeptConcat<T>(s: seq<T>, keep: seq<bool>, t: seq<T>, keep': seq<bool>)
    requires |s| == |keep| && |t| == |keep'|
    ensures Kept(s + t, keep + keep') == Kept(s, keep) + Kept(t, keep')
  {
    if t == [] {
      assert s + t == s && keep + keep' == keep;
    } else {
      var n := |t| - 1;
      KeptConcat(s, keep, t[..n], keep'[..n]);
      assert (s + t)[..|s + t| - 1] == s + t[..n];
      assert (keep + keep')[..|s + t| - 1] == keep + keep'[..n];
    }
  }

  lemma {:induction false} KeptAll<T>(s: seq<T>, keep: seq<bool>)
    requires |s| == |keep|
    requires forall i :: 0 <= i < |keep| ==> keep[i]
    ensures Kept(s, keep) == s
  {
    if s != [] {
      KeptAll(s[..|s| - 1], keep[..|s| - 1]);
    }
  }
}
