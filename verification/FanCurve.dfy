/** Fan calibration curves, their interpolation, and the power computed from them. */
module FanCurve {
  import opened Wrappers

  /** One calibration sample: commanded percentage, airflow in cubic metres per hour, electric draw in watts. */
  datatype CalPoint = CalPoint(pct: int, cmh: real, fanW: real)

  const AIRFLOW_CONSTANT: real := 0.335

  /** The calibration of the Twinfresh Elite 160. */
  const BREEZY_160: seq<CalPoint> := [CalPoint(10, 30.0, 2.0), CalPoint(50, 100.0, 9.0), CalPoint(100, 160.0, 22.0)]

  const MODEL_CURVES: map<int, seq<CalPoint>> := map[17 := BREEZY_160]

  /** The largest draw of one fan at any speed of any calibrated model. */
  const TOP_DRAW: real := 22.0

  // ---- interpolation ---------------------------------------------------------------------

  predicate Ascending(curve: seq<CalPoint>) {
    forall i, j :: 0 <= i < j < |curve| ==> curve[i].pct < curve[j].pct
  }

  ghost predicate NonDecreasing(curve: seq<CalPoint>, sel: CalPoint -> real) {
    forall i, j :: 0 <= i < j < |curve| ==> sel(curve[i]) <= sel(curve[j])
  }

  function Line(lo: CalPoint, hi: CalPoint, pct: int, sel: CalPoint -> real): real
    requires lo.pct < hi.pct
  {
    var t := (pct - lo.pct) as real / (hi.pct - lo.pct) as real;
    sel(lo) + t * (sel(hi) - sel(lo))
  }

  /** The first segment, from `i` on, that reaches `pct`. */
  function Bracket(curve: seq<CalPoint>, pct: int, i: nat): (k: nat)
    requires 1 <= i < |curve| && Ascending(curve)
    requires curve[i - 1].pct < pct < curve[|curve| - 1].pct
    ensures i <= k < |curve| && curve[k - 1].pct < pct <= curve[k].pct
    decreases |curve| - i
  {
    if pct <= curve[i].pct then i else Bracket(curve, pct, i + 1)
  }

  /** Piecewise-linear interpolation, clamped at both ends of the table. */
  function Interp(curve: seq<CalPoint>, pct: int, sel: CalPoint -> real): real
    requires Ascending(curve)
  {
    if curve == [] then 0.0
    else if pct <= curve[0].pct then sel(curve[0])
    else if pct >= curve[|curve| - 1].pct then sel(curve[|curve| - 1])
    else
      var k := Bracket(curve, pct, 1);
      Line(curve[k - 1], curve[k], pct, sel)
  }

  lemma {:induction false} BracketIs(curve: seq<CalPoint>, pct: int, i: nat, k: nat)
    requires 1 <= i <= k < |curve| && Ascending(curve)
    requires curve[k - 1].pct < pct <= curve[k].pct && pct < curve[|curve| - 1].pct
    ensures curve[i - 1].pct < pct && Bracket(curve, pct, i) == k
    decreases k - i
  {
    assert i < k ==> curve[i].pct <= curve[k - 1].pct;
    if i < k {
      BracketIs(curve, pct, i + 1, k);
    }
  }

  lemma FractionOrder(n: int, m: int, d: int)
    requires 0 <= n <= m <= d && 0 < d
    ensures 0.0 <= n as real / d as real <= m as real / d as real <= 1.0
  {
  }

  lemma ScaleOrder(s: real, t: real, gap: real)
    requires 0.0 <= s <= t <= 1.0 && 0.0 <= gap
    ensures 0.0 <= s * gap <= t * gap <= gap
  {
    assert (t - s) * gap >= 0.0 && (1.0 - t) * gap >= 0.0 && s * gap >= 0.0;
  }

  /** On one segment the line stays between its samples and never falls. */
  lemma LineRises(lo: CalPoint, hi: CalPoint, p: int, q: int, sel: CalPoint -> real)
    requires lo.pct <= p <= q <= hi.pct && lo.pct < hi.pct && sel(lo) <= sel(hi)
    ensures sel(lo) <= Line(lo, hi, p, sel) <= Line(lo, hi, q, sel) <= sel(hi)
  {
    hide *;
    var d := hi.pct - lo.pct;
    var s, t, gap := (p - lo.pct) as real / d as real, (q - lo.pct) as real / d as real, sel(hi) - sel(lo);
    FractionOrder(p - lo.pct, q - lo.pct, d);
    ScaleOrder(s, t, gap);
    LineIs(lo, hi, p, sel);
    LineIs(lo, hi, q, sel);
  }

  lemma LineIs(lo: CalPoint, hi: CalPoint, pct: int, sel: CalPoint -> real)
    requires lo.pct < hi.pct
    ensures Line(lo, hi, pct, sel) == sel(lo) + (pct - lo.pct) as real / (hi.pct - lo.pct) as real * (sel(hi) - sel(lo))
  {
  }

  /** A line ends on its high sample. */
  lemma LineEnds(lo: CalPoint, hi: CalPoint, sel: CalPoint -> real)
    requires lo.pct < hi.pct
    ensures Line(lo, hi, hi.pct, sel) == sel(hi)
  {
    var d := (hi.pct - lo.pct) as real;
    assert d / d == 1.0;
    assert 1.0 * (sel(hi) - sel(lo)) == sel(hi) - sel(lo);
  }

  /** Interpolation goes through every calibration sample. */
  lemma InterpHitsSamples(curve: seq<CalPoint>, i: nat, sel: CalPoint -> real)
    requires i < |curve| && Ascending(curve)
    ensures Interp(curve, curve[i].pct, sel) == sel(curve[i])
  {
    if 0 < i < |curve| - 1 {
      var pct := curve[i].pct;
      BracketIs(curve, pct, 1, i);
      LineEnds(curve[i - 1], curve[i], sel);
    }
  }

  /** Where an interpolated value lies relative to the samples around it. */
  lemma InterpWithin(curve: seq<CalPoint>, pct: int, sel: CalPoint -> real, i: nat)
    requires i < |curve| && Ascending(curve) && NonDecreasing(curve, sel)
    ensures pct <= curve[i].pct ==> Interp(curve, pct, sel) <= sel(curve[i])
    ensures curve[i].pct <= pct ==> sel(curve[i]) <= Interp(curve, pct, sel)
  {
    if curve[0].pct < pct < curve[|curve| - 1].pct {
      var k := Bracket(curve, pct, 1);
      LineRises(curve[k - 1], curve[k], pct, pct, sel);
      if pct == curve[i].pct { InterpHitsSamples(curve, i, sel); }
    }
  }

  lemma InterpClamps(curve: seq<CalPoint>, pct: int, sel: CalPoint -> real)
    requires curve != [] && Ascending(curve) && NonDecreasing(curve, sel)
    requires pct <= curve[0].pct || curve[|curve| - 1].pct <= pct
    ensures sel(curve[0]) <= Interp(curve, pct, sel) <= sel(curve[|curve| - 1])
    ensures Interp(curve, pct, sel) == if pct <= curve[0].pct then sel(curve[0]) else sel(curve[|curve| - 1])
  {
    assert |curve| > 1 ==> sel(curve[0]) <= sel(curve[|curve| - 1]);
  }

  lemma SameSegment(curve: seq<CalPoint>, p: int, q: int, sel: CalPoint -> real, k: nat)
    requires Ascending(curve) && NonDecreasing(curve, sel) && 1 <= k < |curve|
    requires curve[0].pct < p <= q < curve[|curve| - 1].pct && curve[k - 1].pct < p && q <= curve[k].pct
    ensures Interp(curve, p, sel) <= Interp(curve, q, sel)
  {
    BracketIs(curve, p, 1, k);
    BracketIs(curve, q, 1, k);
    LineRises(curve[k - 1], curve[k], p, q, sel);
  }

  /**
   For every strictly ascending table of non-decreasing values, interpolation
   stays between the first and last sample and never falls as the speed rises.
   */
  lemma InterpBoundedAndMonotone(curve: seq<CalPoint>, p: int, q: int, sel: CalPoint -> real)
    requires curve != [] && Ascending(curve) && NonDecreasing(curve, sel) && p <= q
    ensures sel(curve[0]) <= Interp(curve, p, sel) <= Interp(curve, q, sel) <= sel(curve[|curve| - 1])
  {
    hide Interp;
    var top := |curve| - 1;
    InterpWithin(curve, p, sel, 0);
    InterpWithin(curve, p, sel, top);
    InterpWithin(curve, q, sel, 0);
    InterpWithin(curve, q, sel, top);
    if p <= curve[0].pct || curve[top].pct <= p {
      InterpClamps(curve, p, sel);
    }
    if q <= curve[0].pct || curve[top].pct <= q {
      InterpClamps(curve, q, sel);
    }
    if curve[0].pct < p && q < curve[top].pct {
      var k := Bracket(curve, p, 1);
      if curve[k].pct < q {
        InterpWithin(curve, p, sel, k);
        InterpWithin(curve, q, sel, k);
      } else {
        SameSegment(curve, p, q, sel, k);
      }
    }
  }

  // ---- power -----------------------------------------------------------------------------------

  lemma ModelCurvesAreTables(unitType: int)
    requires unitType in MODEL_CURVES
    ensures var c := MODEL_CURVES[unitType];
            c != [] && Ascending(c) && NonDecreasing(c, (p: CalPoint) => p.cmh)
                && NonDecreasing(c, (p: CalPoint) => p.fanW)
            && c[0].cmh > 0.0 && c[0].fanW >= 0.0 && c[|c| - 1].fanW <= TOP_DRAW
  {
  }

  /** The power carried by an airflow across a temperature difference. */
  function HeatWatts(cmh: real, supplyDeltaC: real): real { cmh * AIRFLOW_CONSTANT * supplyDeltaC }

  /** Heat recovered (positive) or removed (negative) in watts; `None` for an uncalibrated model. */
  function ComputeWatts(unitType: int, fanPct: int, supplyDeltaC: real): (w: Option<real>)
    ensures w.Some? <==> unitType in MODEL_CURVES
  {
    if unitType !in MODEL_CURVES then None
    else
      ModelCurvesAreTables(unitType);
      var cmh := Interp(MODEL_CURVES[unitType], fanPct, (p: CalPoint) => p.cmh);
      Some(HeatWatts(cmh, supplyDeltaC))
  }

  /** The electric draw of one fan in watts. */
  function ComputeFanWatts(unitType: int, fanPct: int): (w: Option<real>)
    ensures w.Some? <==> unitType in MODEL_CURVES
  {
    if unitType !in MODEL_CURVES then None
    else
      ModelCurvesAreTables(unitType);
      Some(Interp(MODEL_CURVES[unitType], fanPct, (p: CalPoint) => p.fanW))
  }

  /** Between two neighbouring samples the interpolated value divides the gap as the percentage does. */
  lemma InterpIsStraight(curve: seq<CalPoint>, i: nat, pct: int, sel: CalPoint -> real)
    requires 0 < i < |curve| && Ascending(curve) && curve[i - 1].pct < pct <= curve[i].pct
    ensures (Interp(curve, pct, sel) - sel(curve[i - 1])) * (curve[i].pct - curve[i - 1].pct) as real
            == (pct - curve[i - 1].pct) as real * (sel(curve[i]) - sel(curve[i - 1]))
  {
    hide *;
    var lo, hi := curve[i - 1], curve[i];
    InterpIsLine(curve, i, pct, sel);
    LineIs(lo, hi, pct, sel);
    ShareOfGap((pct - lo.pct) as real, (hi.pct - lo.pct) as real, sel(hi) - sel(lo));
  }

  lemma InterpIsLine(curve: seq<CalPoint>, i: nat, pct: int, sel: CalPoint -> real)
    requires 0 < i < |curve| && Ascending(curve) && curve[i - 1].pct < pct <= curve[i].pct
    ensures Interp(curve, pct, sel) == Line(curve[i - 1], curve[i], pct, sel)
  {
    hide Line;
    if pct == curve[|curve| - 1].pct {
      assert i == |curve| - 1;
      LineEnds(curve[i - 1], curve[i], sel);
    } else {
      BracketIs(curve, pct, 1, i);
    }
  }

  lemma ShareOfGap(n: real, d: real, gap: real)
    requires d > 0.0
    ensures n / d * gap * d == n * gap
  {
    assert n / d * d == n;
    assert n / d * gap * d == n / d * d * gap;
  }

  /** The Twinfresh Elite 160's airflow in cubic metres per hour. */
  function Elite160Airflow(pct: int): real {
    if pct <= 10 then 30.0
    else if pct <= 50 then 30.0 + (pct - 10) as real * 1.75
    else if pct <= 100 then 100.0 + (pct - 50) as real * 1.2
    else 160.0
  }

  /** The draw of one of its fans in watts. */
  function Elite160Draw(pct: int): real {
    if pct <= 10 then 2.0
    else if pct <= 50 then 2.0 + (pct - 10) as real * 0.175
    else if pct <= 100 then 9.0 + (pct - 50) as real * 0.26
    else 22.0
  }

  lemma Elite160Interp(pct: int, sel: CalPoint -> real, a: real, b: real, c: real)
    requires sel(CalPoint(10, 30.0, 2.0)) == a && sel(CalPoint(50, 100.0, 9.0)) == b
    requires sel(CalPoint(100, 160.0, 22.0)) == c
    ensures Interp(BREEZY_160, pct, sel) ==
            if pct <= 10 then a
            else if pct <= 50 then a + (pct - 10) as real * (b - a) / 40.0
            else if pct <= 100 then b + (pct - 50) as real * (c - b) / 50.0
            else c
  {
    hide Interp;
    assert Ascending(BREEZY_160);
    if pct <= 10 || pct >= 100 {
      InterpOutside(BREEZY_160, pct, sel);
    } else if pct <= 50 {
      InterpIsStraight(BREEZY_160, 1, pct, sel);
    } else {
      InterpIsStraight(BREEZY_160, 2, pct, sel);
    }
  }

  lemma InterpOutside(curve: seq<CalPoint>, pct: int, sel: CalPoint -> real)
    requires curve != [] && Ascending(curve)
    ensures pct <= curve[0].pct ==> Interp(curve, pct, sel) == sel(curve[0])
    ensures pct >= curve[|curve| - 1].pct ==> Interp(curve, pct, sel) == sel(curve[|curve| - 1])
  {
  }

  lemma WattsOfAirflow(pct: int, delta: real, cmh: real)
    requires Interp(BREEZY_160, pct, (p: CalPoint) => p.cmh) == cmh
    ensures ComputeWatts(17, pct, delta) == Some(cmh * 0.335 * delta)
  {
    hide Interp, HeatWatts;
    HeatWattsIs(cmh, delta);
  }

  lemma HeatWattsIs(cmh: real, delta: real)
    ensures HeatWatts(cmh, delta) == cmh * 0.335 * delta
  {
  }

  lemma Elite160Is(pct: int)
    ensures Interp(BREEZY_160, pct, (p: CalPoint) => p.cmh) == Elite160Airflow(pct)
    ensures ComputeFanWatts(17, pct) == Some(Elite160Draw(pct))
  {
    hide Interp;
    Elite160Interp(pct, (p: CalPoint) => p.cmh, 30.0, 100.0, 160.0);
    Elite160Interp(pct, (p: CalPoint) => p.fanW, 2.0, 9.0, 22.0);
  }

  /** The one calibrated model is type 17, and its two powers at every percentage are these. */
  lemma CalibratedModelIs(unitType: int, pct: int, delta: real)
    ensures unitType in MODEL_CURVES <==> unitType == 17
    ensures ComputeWatts(17, pct, delta) == Some(Elite160Airflow(pct) * 0.335 * delta)
    ensures ComputeFanWatts(17, pct) == Some(Elite160Draw(pct))
  {
    hide Interp, Elite160Airflow, Elite160Draw, ComputeWatts, ComputeFanWatts;
    Elite160Is(pct);
    WattsOfAirflow(pct, delta, Elite160Airflow(pct));
  }

  /** The sign of the recovered power is the sign of the supply temperature difference. */
  lemma WattsFollowDelta(unitType: int, fanPct: int, delta: real)
    requires unitType in MODEL_CURVES
    ensures ComputeWatts(unitType, fanPct, delta).Some?
    ensures var w := ComputeWatts(unitType, fanPct, delta).value;
            (w > 0.0 <==> delta > 0.0) && (w < 0.0 <==> delta < 0.0)
  {
    ModelCurvesAreTables(unitType);
    var curve := MODEL_CURVES[unitType];
    InterpBoundedAndMonotone(curve, fanPct, fanPct, (p: CalPoint) => p.cmh);
    var gain := Interp(curve, fanPct, (p: CalPoint) => p.cmh) * AIRFLOW_CONSTANT;
    assert gain > 0.0;
    if delta > 0.0 { assert gain * delta > 0.0; }
    if delta < 0.0 { assert gain * delta < 0.0; }
  }

  /** A fan never draws less at a higher speed, never a negative power and never more than the top draw. */
  lemma FanWattsBounded(unitType: int, p: int, q: int)
    requires unitType in MODEL_CURVES && p <= q
    ensures ComputeFanWatts(unitType, p).Some? && ComputeFanWatts(unitType, q).Some?
    ensures 0.0 <= ComputeFanWatts(unitType, p).value <= ComputeFanWatts(unitType, q).value <= TOP_DRAW
  {
    ModelCurvesAreTables(unitType);
    InterpBoundedAndMonotone(MODEL_CURVES[unitType], p, q, (c: CalPoint) => c.fanW);
  }
}
