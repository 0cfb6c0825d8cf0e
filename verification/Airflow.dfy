/** The fan curve of CFMSensor in src/exit-air/ExitAirTempSensor.cpp: the search for the highest
    PWM within an airflow limit, and the airflow computed from tachometer readings. */
module Airflow {
  import opened Basics

  /** The configured curve; percentages are of the tachometer's maximum. */
  datatype Curve = Curve(c1: real, c2: real, maxCFM: real, tachMin: real, tachMax: real)

  const UINT64_END := 0x1_0000_0000_0000_0000

  /** Stands for `numeric_limits<double>::max()`: it exceeds every 64-bit setting. */
  const DBL_MAX := UINT64_END as real

  // ----- Specification -----

  /** (C2 - C1) * (x - TachMin) / (TachMax - TachMin) */
  function Share(rise: real, part: real, whole: real): real
    requires whole != 0.0
  {
    (rise * part) / whole
  }

  /** Ci * MaxCFM * TACHi */
  function Air(ci: real, maxCFM: real, x: real): real {
    ci * maxCFM * x
  }

  /** The interpolated coefficient Ci. With tachMin == tachMax the last branch divides 0 by 0. */
  function Coefficient(c: Curve, x: real): Double {
    if x == 0.0 then Num(0.0)
    else if x < c.tachMin then Num(c.c1)
    else if x > c.tachMax then Num(c.c2)
    else if c.tachMin == c.tachMax then NaN
    else Num(c.c1 + Share(c.c2 - c.c1, x - c.tachMin, c.tachMax - c.tachMin))
  }

  /** One fan, in percent. */
  function Flow(c: Curve, x: real): Double {
    match Coefficient(c, x)
    case NaN => NaN
    case Num(ci) => Num(Air(ci, c.maxCFM, x))
  }

  function FlowOf(c: Curve): real -> Double {
    x => Flow(c, x)
  }

  /** The airflow of `n` fans at duty `p` percent. */
  function TotalFlow(c: Curve, n: nat, p: nat): Double {
    match Flow(c, p as real)
    case NaN => NaN
    case Num(f) => Num(f * n as real / 100.0)
  }

  /** The duty the search stops at, coming down from `p`. */
  function SearchDown(c: Curve, n: nat, limit: nat, p: nat): (r: nat)
    ensures r <= p
    ensures r > 0 ==> !Num(limit as real).Less(TotalFlow(c, n, r))
    ensures forall q :: r < q <= p ==> Num(limit as real).Less(TotalFlow(c, n, q))
    decreases p, n
  {
    if p == 0 || !Num(limit as real).Less(TotalFlow(c, n, p)) then p
    else SearchDown(c, n, limit, p - 1)
  }

  function MaxRpm(c: Curve, n: nat, limit: nat): nat {
    if limit == 0 then 100 else SearchDown(c, n, limit, 100)
  }

  predicate EndsWith(s: string, suffix: string) {
    |suffix| <= |s| && s[|s| - |suffix|..] == suffix
  }

  /** The first entry, in key order, whose path ends with `name`. */
  function Lookup<V>(items: seq<(string, V)>, name: string): Option<V> {
    if items == [] then None
    else if EndsWith(items[0].0, name) then Some(items[0].1)
    else Lookup(items[1..], name)
  }

  datatype Tachs = Tachs(readings: seq<(string, real)>, ranges: seq<(string, (real, real))>)

  /** The reading of one tach in percent of its range; None when there is no reading, no range
      or a range that ends at zero. */
  function Percent(t: Tachs, name: string): Option<real> {
    match (Lookup(t.readings, name), Lookup(t.ranges, name))
    case (Some(rpm), Some(range)) => if range.1 == 0.0 then None else Some(rpm / range.1 * 100.0)
    case _ => None
  }

  /** The sum over the named tachs: a tach without a reading is skipped, one without a usable
      range makes the whole calculation fail. */
  function SumFlow(flow: real -> Double, t: Tachs, names: seq<string>): Option<Double> {
    if names == [] then Some(Num(0.0))
    else
      var name := names[|names| - 1];
      match SumFlow(flow, t, names[..|names| - 1])
      case None => None
      case Some(sum) =>
        if Lookup(t.readings, name).None? then Some(sum)
        else match Percent(t, name)
          case None => None
          case Some(x) => Some(sum.Plus(flow(x)))
  }

  function Calculated(c: Curve, t: Tachs, names: seq<string>): Option<Double> {
    match SumFlow(FlowOf(c), t, names)
    case None => None
    case Some(NaN) => Some(NaN)
    case Some(Num(sum)) => Some(Num(sum / 100.0))
  }

  // ----- The source's own form -----

  class CFMSensor {
    var tachs: seq<string>
    var curve: Curve
    var tachReadings: seq<(string, real)>
    var tachRanges: seq<(string, (real, real))>

    constructor (tachs: seq<string>, curve: Curve)
      ensures this.tachs == tachs && this.curve == curve && tachReadings == [] && tachRanges == []
    {
      this.tachs, this.curve, tachReadings, tachRanges := tachs, curve, [], [];
    }

    method GetMaxRpm(cfmMaxSetting: nat) returns (pwmPercent: nat)
      requires cfmMaxSetting < UINT64_END
      ensures pwmPercent == MaxRpm(curve, |tachs|, cfmMaxSetting)
    {
      pwmPercent := 100;
      var totalCFM := Num(DBL_MAX);
      if cfmMaxSetting == 0 {
        return;
      }
      var firstLoop := true;
      while Num(cfmMaxSetting as real).Less(totalCFM)
        invariant pwmPercent <= 100
        invariant if firstLoop then pwmPercent == 100 && totalCFM == Num(DBL_MAX)
                  else pwmPercent > 0 && totalCFM == TotalFlow(curve, |tachs|, pwmPercent)
        invariant SearchDown(curve, |tachs|, cfmMaxSetting, 100) ==
          SearchDown(curve, |tachs|, cfmMaxSetting, pwmPercent)
        decreases firstLoop, pwmPercent
      {
        if firstLoop {
          firstLoop := false;
        } else {
          pwmPercent := pwmPercent - 1;
        }
        totalCFM := TotalFlow(curve, |tachs|, pwmPercent);
        if pwmPercent <= 0 {
          break;
        }
      }
    }

    method FindReading(name: string) returns (found: Option<real>)
      ensures found == Lookup(tachReadings, name)
    {
      var i := 0;
      while i < |tachReadings|
        invariant i <= |tachReadings|
        invariant Lookup(tachReadings, name) == Lookup(tachReadings[i..], name)
      {
        if EndsWith(tachReadings[i].0, name) {
          return Some(tachReadings[i].1);
        }
        assert tachReadings[i..][1..] == tachReadings[i + 1..];
        i := i + 1;
      }
      return None;
    }

    method FindRange(name: string) returns (found: Option<(real, real)>)
      ensures found == Lookup(tachRanges, name)
    {
      var i := 0;
      while i < |tachRanges|
        invariant i <= |tachRanges|
        invariant Lookup(tachRanges, name) == Lookup(tachRanges[i..], name)
      {
        if EndsWith(tachRanges[i].0, name) {
          return Some(tachRanges[i].1);
        }
        assert tachRanges[i..][1..] == tachRanges[i + 1..];
        i := i + 1;
      }
      return None;
    }

    /** `calculate`: None where the source returns false. */
    method Calculate() returns (value: Option<Double>)
      ensures value == Calculated(curve, Tachs(tachReadings, tachRanges), tachs)
    {
      ghost var t := Tachs(tachReadings, tachRanges);
      var totalCFM := Num(0.0);
      for i := 0 to |tachs|
        invariant SumFlow(FlowOf(curve), t, tachs[..i]) == Some(totalCFM)
      {
        assert tachs[..i + 1][..i] == tachs[..i];
        var findReading := FindReading(tachs[i]);
        var findRange := FindRange(tachs[i]);
        if findReading.None? {
          continue;
        }
        if findRange.None? || findRange.value.1 == 0.0 {
          FailureSpreads(FlowOf(curve), t, tachs, i + 1);
          return None;
        }
        var rpm := findReading.value;
        rpm := rpm / findRange.value.1;
        rpm := rpm * 100.0;
        totalCFM := totalCFM.Plus(Flow(curve, rpm));
      }
      assert tachs[..|tachs|] == tachs;
      match totalCFM {
        case NaN => value := Some(NaN);
        case Num(sum) => value := Some(Num(sum / 100.0));
      }
    }
  }

  lemma {:induction false} FailureSpreads(flow: real -> Double, t: Tachs, names: seq<string>, i: nat)
    requires i <= |names| && SumFlow(flow, t, names[..i]).None?
    ensures SumFlow(flow, t, names).None?
  {
    if i == |names| {
      assert names[..i] == names;
    } else {
      assert names[..i] == names[..|names| - 1][..i];
      FailureSpreads(flow, t, names[..|names| - 1], i);
    }
  }
}
