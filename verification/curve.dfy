/** Curve reconstruction (`interpolate_curve_for_date` in src/animator.py):
    a sparse day -> count map becomes a dense curve of one value per minute. */
module Curve {
  import opened Wrappers

  /** A calendar day as a day number; ISO 8601 `YYYY-MM-DD` strings sort the
      same way, so string comparisons become integer comparisons. */
  type Day = int

  const MinutesPerDay: nat := 1440

  /** The shape-preserving piecewise-cubic fit (scipy's `PchipInterpolator`)
      through anchors `(xs, ys)`: the interpolant, or `None` when the fit
      raises `ValueError` or `TypeError`. Floating point stays inside it. */
  type Pchip = (seq<int>, seq<nat>) -> Option<real -> real>

  /** Anchor abscissae in hours: `(i + 1) * 24` for day offsets `i = -2..2`,
      so the target day's anchor sits at x = 24. */
  const AnchorXs: seq<int> := [-24, 0, 24, 48, 72]

  function AnchorValue(raw: map<Day, nat>, target: Day, offset: int): nat {
    if target + offset in raw then raw[target + offset]
    else if offset < 0 then 0
    else Get(raw, target, 0)
  }

  /** The five anchor values for days `target - 2 .. target + 2`. A missing
      earlier day counts 0; a missing target or later day borrows the target's
      own count, or 0 when that is missing too. */
  function Anchors(raw: map<Day, nat>, target: Day): (ys: seq<nat>)
    ensures |ys| == |AnchorXs| == 5
    ensures forall i :: 0 <= i < 5 && target + i - 2 in raw ==> ys[i] == raw[target + i - 2]
    ensures forall i :: 0 <= i < 2 && target + i - 2 !in raw ==> ys[i] == 0
    ensures forall i :: 2 <= i < 5 && target + i - 2 !in raw ==>
              ys[i] == (if target in raw then raw[target] else 0)
    ensures forall i :: 0 <= i < 5 ==> AnchorXs[i] == (i - 1) * 24
  {
    [AnchorValue(raw, target, -2), AnchorValue(raw, target, -1), AnchorValue(raw, target, 0),
     AnchorValue(raw, target, 1), AnchorValue(raw, target, 2)]
  }

  function Sum(ys: seq<nat>): nat {
    if |ys| == 0 then 0 else ys[0] + Sum(ys[1..])
  }

  /** A sum of counts is zero exactly when every count is zero. */
  lemma {:induction false} SumZeroIffAllZero(ys: seq<nat>)
    ensures Sum(ys) == 0 <==> forall i :: 0 <= i < |ys| ==> ys[i] == 0
  {
    if |ys| > 0 {
      SumZeroIffAllZero(ys[1..]);
      if Sum(ys) == 0 {
        assert forall i :: 1 <= i < |ys| ==> ys[i] == ys[1..][i - 1];
      }
    }
  }

  /** `numpy.linspace(0, 24, 1440, endpoint=False)[k]`: the k-th minute in
      hours. The whole curve is sampled between the day-before anchor (x = 0)
      and the target anchor (x = 24). */
  function SamplePoint(k: nat): (x: real)
    requires k < MinutesPerDay
    ensures 0.0 <= x < 24.0
    ensures x * 60.0 == k as real
  {
    k as real / 60.0
  }

  /** Python's `int(max(0, y))`: clamp below at zero, truncate toward zero. */
  function ClampTruncate(y: real): (n: nat)
    ensures y <= 0.0 ==> n == 0
    ensures y > 0.0 ==> n as real <= y < n as real + 1.0
  {
    if y <= 0.0 then 0 else y.Floor
  }

  /** The interpolant evaluated at every minute of the span. */
  function SampleCurve(f: real -> real): (curve: seq<nat>)
    ensures |curve| == MinutesPerDay
    ensures forall k :: 0 <= k < MinutesPerDay ==> curve[k] == ClampTruncate(f(SamplePoint(k)))
  {
    var c := seq(MinutesPerDay, k => if 0 <= k < MinutesPerDay then ClampTruncate(f(SamplePoint(k))) else 0);
    assert forall k :: 0 <= k < |c| ==> c[k] == ClampTruncate(f(SamplePoint(k))) >= 0;
    c
  }

  /** The minute curve for `target`. */
  function Interpolate(raw: map<Day, nat>, target: Day, pchip: Pchip): (curve: seq<nat>)
    ensures |curve| == MinutesPerDay
    ensures (forall i :: 0 <= i < 5 ==> Anchors(raw, target)[i] == 0) ==>
              forall k :: 0 <= k < MinutesPerDay ==> curve[k] == 0
    ensures (exists i :: 0 <= i < 5 && Anchors(raw, target)[i] != 0) ==>
              match pchip(AnchorXs, Anchors(raw, target))
              case None =>
                forall k :: 0 <= k < MinutesPerDay ==> curve[k] == Get(raw, target, 0)
              case Some(f) =>
                forall k :: 0 <= k < MinutesPerDay ==>
                  (f(SamplePoint(k)) <= 0.0 ==> curve[k] == 0) &&
                  (f(SamplePoint(k)) > 0.0 ==> curve[k] as real <= f(SamplePoint(k)) < curve[k] as real + 1.0)
  {
    var ys := Anchors(raw, target);
    SumZeroIffAllZero(ys);
    if Sum(ys) == 0 then seq(MinutesPerDay, k => 0)
    else match pchip(AnchorXs, ys)
      case None => seq(MinutesPerDay, k => ys[2])
      case Some(f) =>
        SampleCurve(f)
  }

  /** Raw maps that agree on the five anchor days give the same curve: a
      curve depends on days `target - 2 .. target + 2` and nothing else. */
  lemma InterpolateIsLocal(raw1: map<Day, nat>, raw2: map<Day, nat>, target: Day, pchip: Pchip)
    requires forall d :: target - 2 <= d <= target + 2 ==>
               (d in raw1 <==> d in raw2) && (d in raw1 ==> raw1[d] == raw2[d])
    ensures Interpolate(raw1, target, pchip) == Interpolate(raw2, target, pchip)
  {
    assert Anchors(raw1, target) == Anchors(raw2, target);
  }
}
