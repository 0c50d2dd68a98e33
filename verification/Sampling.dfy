/** The choice of segments to check, sampleSegments in pkg/usenet/usenet.go, in exact arithmetic. */
module Sampling {

  /** How many segments are asked for; Go's truncation differs from `/` only below zero, where 2 applies. */
  function TargetCount(total: nat, percent: int): int {
    var wanted := total * percent / 100;
    var atLeast := if wanted < 2 then 2 else wanted;
    if atLeast > total then total else atLeast
  }

  /** The index into the middle segments that the float step picks, with an exact division. */
  function MiddleIndex(middle: nat, count: nat, i: nat): int {
    (middle as real / (count + 1) as real * (i + 1) as real).Floor
  }

  lemma TargetFits(total: nat, percent: int)
    requires total > 3 && percent < 100
    ensures 2 <= TargetCount(total, percent) < total
    ensures TargetCount(total, percent) == if total * percent / 100 < 2 then 2 else total * percent / 100
  {
    AtMost99(total, percent);
  }

  lemma AtMost99(total: nat, percent: int)
    requires percent < 100
    ensures total * percent <= 99 * total
  {
    assert total * (99 - percent) >= 0;
  }

  lemma ScaleOrder(a: real, b: real, c: real)
    requires c > 0.0
    ensures a < b ==> a * c < b * c
    ensures a <= b ==> a * c <= b * c
  {
  }

  /** The floating step amounts to an integer division. */
  lemma MiddleIndexIs(middle: nat, count: nat, i: nat)
    ensures MiddleIndex(middle, count, i) == middle * (i + 1) / (count + 1)
  {
    var d, m := count + 1, middle * (i + 1);
    var q := m / d;
    var x := middle as real / d as real * (i + 1) as real;
    assert q * d <= m < (q + 1) * d;
    assert x * d as real == m as real by {
      assert middle as real / d as real * d as real == middle as real;
      Swap(middle as real / d as real, (i + 1) as real, d as real);
    }
    Between(x, q, d, m);
  }

  lemma Swap(a: real, b: real, c: real)
    ensures a * b * c == a * c * b
  {
  }

  lemma Between(x: real, q: int, d: nat, m: nat)
    requires d > 0 && x * d as real == m as real && q * d <= m < (q + 1) * d
    ensures x.Floor == q
  {
    assert (q * d) as real == q as real * d as real;
    assert ((q + 1) * d) as real == (q + 1) as real * d as real;
    ScaleOrder(x, q as real, d as real);
    ScaleOrder((q + 1) as real, x, d as real);
  }

  /** With no more picks than middle segments, the picks are distinct and the clamp is idle. */
  lemma MiddleIndexSteps(middle: nat, count: nat, i: nat)
    requires i < count <= middle - 1
    ensures 0 <= MiddleIndex(middle, count, i) < middle
    ensures i + 1 < count ==> MiddleIndex(middle, count, i) < MiddleIndex(middle, count, i + 1)
  {
    hide MiddleIndex;
    MiddleIndexIs(middle, count, i);
    MiddleIndexIs(middle, count, i + 1);
    var d, m := count + 1, middle * (i + 1);
    Next(middle, i + 1);
    QuotientStep(m, middle, d);
    MulLess(i + 1, d, middle);
    QuotientBelow(m, d, middle);
  }

  lemma Next(a: nat, b: nat)
    ensures a * (b + 1) == a * b + a
  {
  }

  lemma MulLess(a: nat, b: nat, c: nat)
    requires a < b && c > 0
    ensures c * a < c * b
  {
  }

  lemma MulAtMost(a: nat, b: nat, c: nat)
    requires a <= b
    ensures a * c <= b * c
  {
  }

  lemma QuotientStep(a: nat, more: nat, d: nat)
    requires 0 < d <= more
    ensures a / d < (a + more) / d
  {
    var q, r := a / d, (a + more) / d;
    assert q * d <= a && a + more < (r + 1) * d;
    if r <= q { MulAtMost(r + 1, q + 1, d); }
  }

  lemma QuotientBelow(a: nat, d: nat, q: nat)
    requires d > 0 && a < q * d
    ensures a / d < q
  {
    var r := a / d;
    assert r * d <= a;
    if q <= r { MulAtMost(q, r, d); }
  }

  ghost predicate Increasing(s: seq<nat>) { forall i, j :: 0 <= i < j < |s| ==> s[i] < s[j] }

  lemma IncreasingAppend(s: seq<nat>, x: nat)
    requires Increasing(s) && (s != [] ==> s[|s| - 1] < x)
    ensures Increasing(s + [x])
  {
    assert forall i :: 0 <= i < |s| ==> s[i] <= s[|s| - 1];
  }

  /** The loop over the middle segments. */
  method SampleMiddle(middle: seq<string>, count: nat)
    returns (picked: seq<string>, ghost indices: seq<nat>, ghost clamped: bool)
    requires 0 < count < |middle|
    ensures |picked| == |indices| == count && Increasing(indices) && !clamped
    ensures forall k :: 0 <= k < count ==> indices[k] == MiddleIndex(|middle|, count, k) < |middle|
    ensures forall k :: 0 <= k < count ==> picked[k] == middle[indices[k]]
  {
    hide MiddleIndex;
    picked, indices, clamped := [], [], false;
    for i := 0 to count
      invariant |picked| == |indices| == i && Increasing(indices) && !clamped
      invariant forall k :: 0 <= k < i ==> indices[k] == MiddleIndex(|middle|, count, k) < |middle|
      invariant forall k :: 0 <= k < i ==> picked[k] == middle[indices[k]]
    {
      MiddleIndexSteps(|middle|, count, i);
      if i > 0 { MiddleIndexSteps(|middle|, count, i - 1); }
      var idx := MiddleIndex(|middle|, count, i);
      if idx >= |middle| {
        idx := |middle| - 1;
        clamped := true;
      }
      picked := picked + [middle[idx]];
      IncreasingAppend(indices, idx);
      indices := indices + [idx];
    }
  }

  /** The positions of the middle picks, between those of the first and the last segment. */
  ghost function WithEnds(indices: seq<nat>, total: nat): seq<nat>
    requires total > 0
  {
    [0] + seq(|indices|, k requires 0 <= k < |indices| => indices[k] + 1) + [total - 1]
  }

  lemma WithEndsMeaning(indices: seq<nat>, total: nat)
    requires total > 3 && Increasing(indices) && forall k :: 0 <= k < |indices| ==> indices[k] < total - 2
    ensures var p := WithEnds(indices, total);
      && |p| == |indices| + 2 && Increasing(p) && p[0] == 0 && p[|p| - 1] == total - 1
      && forall k :: 0 < k < |p| - 1 ==> p[k] == 1 + indices[k - 1]
  {}

  /** `positions` are the indices picked, in order; `clamped` says whether the index clamp ever acted. */
  method SampleSegments(segments: seq<string>, percent: int)
    returns (sampled: seq<string>, ghost positions: seq<nat>, ghost clamped: bool)
    ensures |sampled| == |positions| && Increasing(positions)
    ensures forall k :: 0 <= k < |positions| ==> positions[k] < |segments| && sampled[k] == segments[positions[k]]
    ensures percent >= 100 || |segments| <= 3 ==> sampled == segments
    ensures percent < 100 && |segments| > 3 ==>
      && |positions| == (if |segments| * percent / 100 < 2 then 2 else |segments| * percent / 100)
      && positions[0] == 0 && positions[|positions| - 1] == |segments| - 1
      && forall k :: 0 < k < |positions| - 1 ==>
        positions[k] == 1 + MiddleIndex(|segments| - 2, |positions| - 2, k - 1)
    ensures !clamped
  {
    hide MiddleIndex;
    clamped := false;
    var total := |segments|;
    if total == 0 {
      return [], [], false;
    }
    if percent >= 100 || total <= 3 {
      return segments, seq(total, i => i), false;
    }
    var target := TargetCount(total, percent);
    TargetFits(total, percent);
    sampled := [segments[0]];
    ghost var indices := [];
    var count := target - 2;
    if count > 0 {
      var picked;
      picked, indices, clamped := SampleMiddle(segments[1..total - 1], count);
      sampled := sampled + picked;
    }
    sampled := sampled + [segments[total - 1]];
    positions := WithEnds(indices, total);
    WithEndsMeaning(indices, total);
    hide Increasing, TargetCount, WithEnds;
  }
}
