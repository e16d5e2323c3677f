/** The one-pass maximum drawdown of an equity curve, against its all-pairs definition. */
module Drawdown {
  import opened Options

  function Peak(curve: seq<real>, n: nat): (peak: real)
    requires n < |curve|
    ensures forall i :: 0 <= i <= n ==> curve[i] <= peak
    ensures exists i :: 0 <= i <= n && curve[i] == peak
  {
    if n == 0 then curve[0]
    else
      var before := Peak(curve, n - 1);
      if curve[n] > before then curve[n] else before
  }

  function Drop(peak: real, equity: real): real { if peak > 0.0 then (peak - equity) / peak else 0.0 }

  /** The largest drop from the running peak among the first `n` points. */
  function OnePass(curve: seq<real>, n: nat): real
    requires n <= |curve|
  {
    if n == 0 then 0.0
    else
      var before, drop := OnePass(curve, n - 1), Drop(Peak(curve, n - 1), curve[n - 1]);
      if drop > before then drop else before
  }

  /** An empty curve has no first point, and the program fails on it. */
  method CalculateMaxDrawdown(curve: seq<real>) returns (maxDrawdown: Option<real>)
    ensures curve == [] ==> maxDrawdown == None
    ensures curve != [] ==> maxDrawdown == Some(OnePass(curve, |curve|))
  {
    if curve == [] { return None; }
    var peak, maxDd := curve[0], 0.0;
    for n := 0 to |curve|
      invariant peak == if n == 0 then curve[0] else Peak(curve, n - 1)
      invariant maxDd == OnePass(curve, n)
    {
      if curve[n] > peak { peak := curve[n]; }
      var dd := if peak > 0.0 then (peak - curve[n]) / peak else 0.0;
      if dd > maxDd { maxDd := dd; }
    }
    return Some(maxDd);
  }

  /** A fall from a positive point `i` to a later or equal point `j`. */
  predicate Fall(curve: seq<real>, i: int, j: int) { 0 <= i <= j < |curve| && curve[i] > 0.0 }

  /** What is left of a peak after the fall, as a share of it. */
  lemma Remainder(peak: real, equity: real)
    requires peak > 0.0
    ensures (1.0 - Drop(peak, equity)) * peak == equity
  {
    assert Drop(peak, equity) * peak == peak - equity;
  }

  lemma SmallerPeak(p: real, q: real, e: real)
    requires 0.0 < p < q
    ensures Drop(p, e) <= Drop(q, e) <==> e >= 0.0
  {
    Remainder(p, e);
    Remainder(q, e);
    var x, y := 1.0 - Drop(p, e), 1.0 - Drop(q, e);
    assert y * (q - p) == (x - y) * p;
    SameSign(y, q);
    SameSign(y, q - p);
    SameSign(x - y, p);
  }

  lemma SameSign(a: real, b: real)
    requires b > 0.0
    ensures a * b >= 0.0 <==> a >= 0.0
  {
  }

  /** At any point the running peak gives the deepest fall exactly when the equity there is not negative, or
  the peak is the only positive value so far. */
  lemma PeakIsDeepestIff(curve: seq<real>, j: nat)
    requires j < |curve|
    ensures (forall i :: Fall(curve, i, j) ==> Drop(curve[i], curve[j]) <= Drop(Peak(curve, j), curve[j]))
       <==> curve[j] >= 0.0 || forall i :: Fall(curve, i, j) ==> curve[i] == Peak(curve, j)
  {
    var peak := Peak(curve, j);
    forall i | Fall(curve, i, j) && curve[i] < peak
      ensures Drop(curve[i], curve[j]) <= Drop(peak, curve[j]) <==> curve[j] >= 0.0
    {
      SmallerPeak(curve[i], peak, curve[j]);
    }
  }

  /** The one pass never reports more than some fall of the curve. */
  lemma {:induction false} OnePassIsAFall(curve: seq<real>, n: nat)
    requires n <= |curve|
    ensures OnePass(curve, n) >= 0.0
    ensures OnePass(curve, n) == 0.0
         || exists i, j :: j < n && Fall(curve, i, j) && OnePass(curve, n) == Drop(curve[i], curve[j])
  {
    if n > 0 {
      OnePassIsAFall(curve, n - 1);
      var i :| 0 <= i <= n - 1 && curve[i] == Peak(curve, n - 1);
      if Peak(curve, n - 1) > 0.0 { assert Fall(curve, i, n - 1); }
    }
  }

  lemma {:induction false} OnePassCoversDrops(curve: seq<real>, n: nat, j: nat)
    requires j < n <= |curve|
    ensures Drop(Peak(curve, j), curve[j]) <= OnePass(curve, n)
  {
    if j < n - 1 { OnePassCoversDrops(curve, n - 1, j); }
  }

  ghost predicate NeverNegative(curve: seq<real>) { forall i :: 0 <= i < |curve| ==> curve[i] >= 0.0 }

  lemma NoDeeperFall(curve: seq<real>, i: int, j: int)
    requires Fall(curve, i, j) && curve[j] >= 0.0
    ensures Drop(curve[i], curve[j]) <= OnePass(curve, |curve|)
  {
    PeakIsDeepestIff(curve, j);
    OnePassCoversDrops(curve, |curve|, j);
  }

  lemma FallAtMostWhole(peak: real, equity: real)
    requires equity >= 0.0
    ensures Drop(peak, equity) <= 1.0
  {
    if peak > 0.0 { Remainder(peak, equity); }
  }

  /** For a curve that never goes negative the one pass is the largest of all falls, and lies in [0, 1]. */
  lemma OnePassIsMaximum(curve: seq<real>)
    requires curve != [] && NeverNegative(curve)
    ensures forall i, j :: Fall(curve, i, j) ==> Drop(curve[i], curve[j]) <= OnePass(curve, |curve|)
    ensures var result := OnePass(curve, |curve|);
      result == 0.0 || exists i, j :: Fall(curve, i, j) && result == Drop(curve[i], curve[j])
    ensures 0.0 <= OnePass(curve, |curve|) <= 1.0
  {
    var result := OnePass(curve, |curve|);
    OnePassIsAFall(curve, |curve|);
    forall i, j | Fall(curve, i, j) ensures Drop(curve[i], curve[j]) <= result { NoDeeperFall(curve, i, j); }
    if result != 0.0 {
      var i, j :| Fall(curve, i, j) && result == Drop(curve[i], curve[j]);
      FallAtMostWhole(curve[i], curve[j]);
    }
  }

  /** The smallest positive value among the first `n + 1` points. */
  function Least(curve: seq<real>, n: nat): (least: Option<real>)
    requires n < |curve|
    ensures least.Some? ==> exists i :: Fall(curve, i, n) && curve[i] == least.value
    ensures forall i :: Fall(curve, i, n) ==> least.Some? && least.value <= curve[i]
  {
    var before := if n == 0 then None else Least(curve, n - 1);
    assert n > 0 ==> forall i :: Fall(curve, i, n) && i < n ==> Fall(curve, i, n - 1);
    assert n > 0 ==> forall i :: Fall(curve, i, n - 1) ==> Fall(curve, i, n);
    assert curve[n] > 0.0 ==> Fall(curve, n, n);
    if curve[n] > 0.0 && (before.None? || curve[n] < before.value) then Some(curve[n]) else before
  }

  /** The deepest fall to a negative point `j`, the one from the smallest positive value so far, is matched by the
  drop from its running peak at some point `k`. */
  predicate MatchedAt(curve: seq<real>, j: nat, k: nat)
    requires j < |curve| && k < |curve| && Least(curve, j).Some?
  {
    Drop(Least(curve, j).value, curve[j]) <= Drop(Peak(curve, k), curve[k])
  }

  predicate Matched(curve: seq<real>, j: nat)
    requires j < |curve|
  {
    curve[j] < 0.0 && Least(curve, j).Some? ==> exists k: nat :: k < |curve| && MatchedAt(curve, j, k)
  }

  lemma FallFromLeast(curve: seq<real>, i: int, j: int)
    requires Fall(curve, i, j) && curve[j] < 0.0
    ensures Least(curve, j).Some? && Drop(curve[i], curve[j]) <= Drop(Least(curve, j).value, curve[j])
  {
    var least := Least(curve, j).value;
    if least < curve[i] { SmallerPeak(least, curve[i], curve[j]); }
  }

  lemma {:induction false} OnePassIsSomeDrop(curve: seq<real>, n: nat) returns (k: nat)
    requires n <= |curve|
    ensures OnePass(curve, n) == 0.0 || (k < n && OnePass(curve, n) == Drop(Peak(curve, k), curve[k]))
  {
    k := 0;
    if n > 0 {
      var j := n - 1;
      k := OnePassIsSomeDrop(curve, j);
      var drop := Drop(Peak(curve, j), curve[j]);
      assert OnePass(curve, n) == if drop > OnePass(curve, j) then drop else OnePass(curve, j);
      if drop > OnePass(curve, j) { k := j; }
    }
  }

  lemma FallBelowZero(peak: real, equity: real)
    requires peak > 0.0 > equity
    ensures Drop(peak, equity) > 1.0
  {
    Remainder(peak, equity);
    SameSign(1.0 - Drop(peak, equity), peak);
  }

  /** The one pass reports at least the fall from the smallest positive value to a negative point exactly when some
  drop from a running peak matches it. */
  lemma MatchedIff(curve: seq<real>, j: nat)
    requires j < |curve| && curve[j] < 0.0 && Least(curve, j).Some?
    ensures Drop(Least(curve, j).value, curve[j]) <= OnePass(curve, |curve|) <==> Matched(curve, j)
  {
    var i :| Fall(curve, i, j) && curve[i] == Least(curve, j).value;
    FallBelowZero(curve[i], curve[j]);
    if Drop(curve[i], curve[j]) <= OnePass(curve, |curve|) {
      var k := OnePassIsSomeDrop(curve, |curve|);
      assert MatchedAt(curve, j, k);
    } else if Matched(curve, j) {
      var k: nat :| k < |curve| && MatchedAt(curve, j, k);
      OnePassCoversDrops(curve, |curve|, k);
    }
  }

  /** For any curve the one pass is the largest of all falls if and only if the fall from the smallest positive value
  to each negative point is matched by some drop from a running peak. */
  lemma OnePassIsMaximumIff(curve: seq<real>)
    ensures (forall i, j :: Fall(curve, i, j) ==> Drop(curve[i], curve[j]) <= OnePass(curve, |curve|))
       <==> forall j :: 0 <= j < |curve| ==> Matched(curve, j)
  {
    if forall j :: 0 <= j < |curve| ==> Matched(curve, j) {
      forall i, j | Fall(curve, i, j) ensures Drop(curve[i], curve[j]) <= OnePass(curve, |curve|) {
        if curve[j] >= 0.0 {
          NoDeeperFall(curve, i, j);
        } else {
          FallFromLeast(curve, i, j);
          MatchedIff(curve, j);
        }
      }
    } else {
      var j :| 0 <= j < |curve| && !Matched(curve, j);
      var i :| Fall(curve, i, j) && curve[i] == Least(curve, j).value;
      MatchedIff(curve, j);
    }
  }

  /** With negative equity the one pass can miss the largest fall: from 1 to -1 is a fall of 2, deeper than
  the fall of 3/2 from the peak. */
  lemma NegativeEquityIsMissed()
    ensures var curve := [1.0, 2.0, -1.0];
      Fall(curve, 0, 2) && OnePass(curve, |curve|) == 1.5 < Drop(curve[0], curve[2])
  {
    var curve := [1.0, 2.0, -1.0];
    assert Peak(curve, 0) == 1.0 && Peak(curve, 1) == 2.0 && Peak(curve, 2) == 2.0;
    assert OnePass(curve, 1) == 0.0 && OnePass(curve, 2) == 0.0;
  }
}
