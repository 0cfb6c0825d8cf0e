/** ExitAirTempSensor::calculate of src/exit-air/ExitAirTempSensor.cpp: the exit air temperature
    and its exponential average. */
module ExitAir {
  import opened Basics
  import Airflow
  import AirflowCap

  datatype Config = Config(
    powerFactorMin: real, powerFactorMax: real, qMin: real, qMax: real,
    alphaS: real, alphaF: real, pOffset: real, altitudeFactor: real)

  /** Everything one call reads: `zones` are the results of the CFM sensors' own calculations (None
      for a failure); the time is the steady clock in nanoseconds. */
  datatype Input = Input(zones: seq<Option<Double>>, inletTemp: Double, powerOn: bool, powers: seq<Double>, time: int)

  /** `firstRead` is a static variable of the function: one for the whole process. */
  datatype Average = Average(firstRead: bool, lastReading: Double, lastTime: int)

  const NANOS := 1_000_000_000

  // ----- Specification -----

  function TotalPower(powers: seq<Double>): real {
    if powers == [] then 0.0
    else TotalPower(powers[..|powers| - 1]) + match powers[|powers| - 1] case NaN => 0.0 case Num(p) => p
  }

  /** The sum over all zones, None if one of them fails. */
  function SumZones(zones: seq<Option<Double>>): Option<Double> {
    if zones == [] then Some(Num(0.0))
    else
      match (SumZones(zones[..|zones| - 1]), zones[|zones| - 1])
      case (Some(sum), Some(reading)) => Some(sum.Plus(reading))
      case _ => None
  }

  function TotalCFM(zones: seq<Option<Double>>): Double {
    match SumZones(zones) case None => Num(-1.0) case Some(sum) => sum
  }

  /** NaN falls through both comparisons. */
  function PowerFactor(c: Config, cfm: Double): Double {
    if cfm.AtMost(Num(c.qMin)) then Num(c.powerFactorMin)
    else if Num(c.qMax).AtMost(cfm) then Num(c.powerFactorMax)
    else
      match cfm
      case NaN => NaN
      case Num(q) =>
        Num(c.powerFactorMin + (c.powerFactorMax - c.powerFactorMin) / (c.qMax - c.qMin) * (q - c.qMin))
  }

  function Corrected(power: real, factor: real, offset: real): real {
    power * factor + offset
  }

  /** Texit = Tfp + (1.76 * TotalPower / CFM * Faltitude) */
  function ExitTemperature(power: real, altitudeFactor: real, cfm: real, inlet: real): real
    requires cfm != 0.0
  {
    1.76 * power * altitudeFactor / cfm + inlet
  }

  function Blend(reading: real, last: real, weight: real): real {
    reading * weight + last * (1.0 - weight)
  }

  /** The power that heats the air. */
  function Heat(c: Config, i: Input): Double {
    match PowerFactor(c, TotalCFM(i.zones))
    case NaN => NaN
    case Num(f) => Num(Corrected(TotalPower(i.powers), f, c.pOffset))
  }

  /** Calls that report a failure: no airflow, too little airflow, no inlet temperature. A NaN
      airflow is not among them. */
  predicate Fails(c: Config, i: Input) {
    var cfm := TotalCFM(i.zones);
    cfm.AtMost(Num(0.0)) || cfm.Less(Num(c.qMin * 0.5)) || i.inletTemp.NaN?
  }

  /** The instantaneous exit temperature, when the call gets as far as averaging it. */
  function Instant(c: Config, i: Input): Option<Double> {
    if Fails(c, i) || !i.powerOn || Heat(c, i) == Num(0.0) then None
    else
      match (TotalCFM(i.zones), Heat(c, i))
      case (Num(q), Num(h)) => Some(Num(ExitTemperature(h, c.altitudeFactor, q, i.inletTemp.val)))
      case _ => Some(NaN)
  }

  function Alpha(c: Config, cfm: real): real {
    if cfm < c.qMin then c.alphaS
    else if cfm >= c.qMax then c.alphaF
    else c.alphaS + (c.alphaF - c.alphaS) * (cfm - c.qMin) / (c.qMax - c.qMin)
  }

  /** `duration_cast<seconds>` truncates toward zero. */
  function WholeSeconds(nanos: int): int {
    if nanos >= 0 then nanos / NANOS else -(-nanos / NANOS)
  }

  function AlphaDT(c: Config, cfm: real, nanos: int): real {
    Times(WholeSeconds(nanos) as real, Alpha(c, cfm))
  }

  function Times(a: real, b: real): real {
    a * b
  }

  /** The smoothing weight of a new reading, capped at 1. */
  function Weight(c: Config, cfm: real, nanos: int): real {
    if AlphaDT(c, cfm, nanos) > 1.0 then 1.0 else AlphaDT(c, cfm, nanos)
  }

  function Smoothed(c: Config, a: Average, i: Input, reading: Double): Double {
    var last := if a.firstRead then a.lastReading else reading;
    match (TotalCFM(i.zones), reading, last)
    case (Num(q), Num(r), Num(l)) => Num(Blend(r, l, Weight(c, q, if a.firstRead then i.time - a.lastTime else 0)))
    case _ => NaN
  }

  function Next(c: Config, a: Average, i: Input): Average {
    match Instant(c, i)
    case None => a
    case Some(r) => Average(true, Smoothed(c, a, i, r), i.time)
  }

  /** What the call reports: the inlet temperature while power is off, the average otherwise. */
  function Reported(c: Config, a: Average, i: Input): Option<Double> {
    if Fails(c, i) then None
    else if !i.powerOn then Some(i.inletTemp)
    else match Instant(c, i) case None => None case Some(r) => Some(Smoothed(c, a, i, r))
  }

  // ----- The source's own form -----

  class ExitAirTempSensor {
    var config: Config
    var firstRead: bool
    var lastReading: Double
    var lastTime: int

    ghost function State(): Average reads this {
      Average(firstRead, lastReading, lastTime)
    }

    constructor (config: Config)
      ensures this.config == config && State() == Average(false, Num(0.0), 0)
    {
      this.config, firstRead, lastReading, lastTime := config, false, Num(0.0), 0;
    }

    /** The object is replaced when the configuration is read again; the function's static
        variable is not. */
    method Recreate(config: Config)
      modifies this
      ensures this.config == config && State() == Average(old(firstRead), Num(0.0), 0)
    {
      this.config := config;
      lastReading, lastTime := Num(0.0), 0;
    }

    method GetTotalCFM(zones: seq<Option<Double>>) returns (sum: Double)
      ensures sum == TotalCFM(zones)
    {
      sum := Num(0.0);
      for k := 0 to |zones|
        invariant SumZones(zones[..k]) == Some(sum)
      {
        assert zones[..k + 1][..k] == zones[..k];
        if zones[k].None? {
          FailedZoneSpreads(zones, k + 1);
          return Num(-1.0);
        }
        sum := sum.Plus(zones[k].value);
      }
      assert zones[..|zones|] == zones;
    }

    /** None where the source returns false. */
    method Calculate(i: Input) returns (val: Option<Double>)
      modifies this`firstRead, this`lastReading, this`lastTime
      ensures State() == Next(config, old(State()), i)
      ensures val == Reported(config, old(State()), i)
    {
      var cfm := GetTotalCFM(i.zones);
      if cfm.AtMost(Num(0.0)) {
        return None;
      }
      if cfm.Less(Num(config.qMin * 0.5)) {
        return None;
      }
      if i.inletTemp.NaN? {
        return None;
      }
      if !i.powerOn {
        return Some(i.inletTemp);
      }
      var totalPower := SumPower(i.powers);
      var heat := match PowerFactor(config, cfm)
        case NaN => NaN
        case Num(f) => Num(Corrected(totalPower, f, config.pOffset));
      if heat == Num(0.0) {
        return None;
      }
      var reading := NaN;
      if heat.Num? && cfm.Num? {
        reading := Num(ExitTemperature(heat.val, config.altitudeFactor, cfm.val, i.inletTemp.val));
      }
      if !firstRead {
        firstRead := true;
        lastTime := i.time;
        lastReading := reading;
      }
      if cfm.Num? && reading.Num? && lastReading.Num? {
        var alphaDT := CappedWeight(config, cfm.val, i.time - lastTime);
        reading := Num(Blend(reading.val, lastReading.val, alphaDT));
      } else {
        reading := NaN;
      }
      lastReading := reading;
      lastTime := i.time;
      return Some(reading);
    }
  }

  /** The weight, capped at 1.0. */
  method CappedWeight(c: Config, cfm: real, nanos: int) returns (alphaDT: real)
    ensures alphaDT == Weight(c, cfm, nanos)
  {
    alphaDT := AlphaDT(c, cfm, nanos);
    if alphaDT > 1.0 {
      alphaDT := 1.0;
    }
  }

  method SumPower(powers: seq<Double>) returns (total: real)
    ensures total == TotalPower(powers)
  {
    total := 0.0;
    for k := 0 to |powers|
      invariant total == TotalPower(powers[..k])
    {
      assert powers[..k + 1][..k] == powers[..k];
      if powers[k].NaN? {
        continue;
      }
      total := total + powers[k].val;
    }
    assert powers[..|powers|] == powers;
  }

  lemma {:induction false} FailedZoneSpreads(zones: seq<Option<Double>>, k: nat)
    requires k <= |zones| && SumZones(zones[..k]).None?
    ensures SumZones(zones).None?
  {
    if k == |zones| {
      assert zones[..k] == zones;
    } else {
      assert zones[..k] == zones[..|zones| - 1][..k];
      FailedZoneSpreads(zones[..|zones| - 1], k);
    }
  }

  // ----- Whole runs -----

  /** A call, or a replacement of the object with a new configuration. */
  datatype Event = Call(i: Input) | Recreated(config: Config)

  datatype System = System(average: Average, config: Config)

  function Step(s: System, ev: Event): System {
    match ev
    case Call(i) => s.(average := Next(s.config, s.average, i))
    case Recreated(config) => System(Average(s.average.firstRead, Num(0.0), 0), config)
  }

  function Run(c: Config, es: seq<Event>): System {
    if es == [] then System(Average(false, Num(0.0), 0), c) else Step(Run(c, es[..|es| - 1]), es[|es| - 1])
  }

  /** The reading a step averages, if it does. */
  function ReadingOf(s: System, ev: Event): Option<Double> {
    match ev case Call(i) => Instant(s.config, i) case Recreated(_) => None
  }

  /** The numbers averaged so far, and a 0 for each time the object was replaced after the first
      call that averaged. */
  function Sources(c: Config, es: seq<Event>): seq<real> {
    if es == [] then []
    else
      var s, ev := Run(c, es[..|es| - 1]), es[|es| - 1];
      Sources(c, es[..|es| - 1]) +
      if ev.Recreated? then (if s.average.firstRead then [0.0] else [])
      else match ReadingOf(s, ev) case Some(Num(r)) => [r] case _ => []
  }

  /** Whether a NaN has been averaged since the object was last replaced. */
  predicate NaNAveraged(c: Config, es: seq<Event>) {
    es != [] && !es[|es| - 1].Recreated? &&
    (ReadingOf(Run(c, es[..|es| - 1]), es[|es| - 1]) == Some(NaN) || NaNAveraged(c, es[..|es| - 1]))
  }

  predicate ConfigOk(c: Config) {
    c.alphaS >= 0.0 && c.alphaF >= 0.0
  }

  predicate ConfigsOk(c: Config, es: seq<Event>) {
    ConfigOk(c) && forall ev :: ev in es && ev.Recreated? ==> ConfigOk(ev.config)
  }

  /** The steady clock starts at 0 and never runs backwards. */
  predicate ClockOk(es: seq<Event>) {
    && (forall j :: 0 <= j < |es| && es[j].Call? ==> 0 <= es[j].i.time)
    && (forall j, k :: 0 <= j < k < |es| && es[j].Call? && es[k].Call? ==> es[j].i.time <= es[k].i.time)
  }

  predicate InHull(rs: seq<real>, x: real) {
    exists lo, hi :: lo in rs && hi in rs && lo <= x <= hi
  }

  lemma AlphaNotNegative(c: Config, cfm: real)
    requires c.alphaS >= 0.0 && c.alphaF >= 0.0
    ensures Alpha(c, cfm) >= 0.0
  {
    if c.qMin <= cfm < c.qMax {
      Between(c.alphaS, c.alphaF, cfm - c.qMin, c.qMax - c.qMin);
    }
  }

  lemma Between(a: real, b: real, x: real, d: real)
    requires a >= 0.0 && b >= 0.0 && 0.0 <= x < d
    ensures a + (b - a) * x / d >= 0.0
  {
    var q := x / d;
    assert 0.0 <= q <= 1.0;
    assert (b - a) * x / d == (b - a) * q;
    assert a + (b - a) * q == a * (1.0 - q) + b * q;
    assert a * (1.0 - q) >= 0.0;
    assert b * q >= 0.0;
  }

  lemma ProductNotNegative(a: real, b: real)
    requires a >= 0.0 && b >= 0.0
    ensures a * b >= 0.0
  {
  }

  /** For non-negative alphas and time that does not run backwards the weight stays in [0,1]. */
  lemma WeightInUnit(c: Config, cfm: real, nanos: int)
    requires c.alphaS >= 0.0 && c.alphaF >= 0.0 && nanos >= 0
    ensures 0.0 <= Weight(c, cfm, nanos) <= 1.0
  {
    AlphaNotNegative(c, cfm);
    ProductNotNegative(WholeSeconds(nanos) as real, Alpha(c, cfm));
  }

  lemma Mixture(x: real, y: real, w: real, lo: real, hi: real)
    requires 0.0 <= w <= 1.0 && lo <= x <= hi && lo <= y <= hi
    ensures lo <= Blend(x, y, w) <= hi
  {
    assert x * w + y * (1.0 - w) - lo == (x - lo) * w + (y - lo) * (1.0 - w);
    assert hi - (x * w + y * (1.0 - w)) == (hi - x) * w + (hi - y) * (1.0 - w);
    ProductNotNegative(x - lo, w);
    ProductNotNegative(y - lo, 1.0 - w);
    ProductNotNegative(hi - x, w);
    ProductNotNegative(hi - y, 1.0 - w);
  }

  lemma {:induction false} LastTimeIsPast(c: Config, es: seq<Event>)
    requires ClockOk(es)
    ensures var last := Run(c, es).average.lastTime;
      last == 0 || exists j :: 0 <= j < |es| && es[j].Call? && es[j].i.time == last
  {
    if es != [] {
      var init := es[..|es| - 1];
      LastTimeIsPast(c, init);
      var last := Run(c, init).average.lastTime;
      if Run(c, es).average.lastTime == last && last != 0 {
        var j :| 0 <= j < |init| && init[j].Call? && init[j].i.time == last;
        assert es[j] == init[j];
      }
    }
  }

  lemma HullGrows(rs: seq<real>, x: real, more: seq<real>)
    requires InHull(rs, x)
    ensures InHull(rs + more, x)
  {
    var lo, hi :| lo in rs && hi in rs && lo <= x <= hi;
    assert lo in rs + more && hi in rs + more;
  }

  lemma BlendInHull(r: real, last: real, w: real, rs: seq<real>)
    requires 0.0 <= w <= 1.0 && InHull(rs, last)
    ensures InHull(rs + [r], Blend(r, last, w))
  {
    var lo, hi :| lo in rs && hi in rs && lo <= last <= hi;
    var lo', hi' := if lo < r then lo else r, if hi < r then r else hi;
    assert lo' in rs + [r] && hi' in rs + [r];
    Mixture(r, last, w, lo', hi');
  }

  /** Averaging a number into a number stays within the hull. */
  lemma SmoothedInHull(c: Config, a: Average, i: Input, r: real, rs: seq<real>)
    requires ConfigOk(c) && TotalCFM(i.zones).Num?
    requires a.firstRead ==> a.lastTime <= i.time && a.lastReading.Num? && InHull(rs, a.lastReading.val)
    ensures Smoothed(c, a, i, Num(r)).Num? && InHull(rs + [r], Smoothed(c, a, i, Num(r)).val)
  {
    var q, nanos := TotalCFM(i.zones).val, if a.firstRead then i.time - a.lastTime else 0;
    WeightInUnit(c, q, nanos);
    if a.firstRead {
      BlendInHull(r, a.lastReading.val, Weight(c, q, nanos), rs);
    } else {
      Mixture(r, r, Weight(c, q, nanos), r, r);
      assert r in rs + [r];
    }
  }

  lemma {:induction false} ConfigAfter(c: Config, es: seq<Event>)
    requires ConfigsOk(c, es)
    ensures ConfigOk(Run(c, es).config)
  {
    if es != [] {
      var init := es[..|es| - 1];
      assert es[|es| - 1] in es && forall ev :: ev in init ==> ev in es;
      ConfigAfter(c, init);
    }
  }

  /** A reading is NaN exactly when the airflow is: no check stops it. */
  lemma ReadingIsNaN(c: Config, i: Input)
    ensures Instant(c, i) == Some(NaN) <==> TotalCFM(i.zones).NaN? && i.inletTemp.Num? && i.powerOn
  {
  }

  /** A NaN reading makes the stored average NaN, and nothing but replacing the object makes it a
      number again. */
  lemma {:induction false} NaNStays(c: Config, es: seq<Event>)
    ensures Run(c, es).average.lastReading.NaN? <==> NaNAveraged(c, es)
    ensures NaNAveraged(c, es) ==> Run(c, es).average.firstRead
  {
    if es != [] { NaNStays(c, es[..|es| - 1]); }
  }

  /** It can happen: one fan at exactly 50 percent of the flat curve makes its zone NaN, and with
      that zone among the zones that report, any call with power and an inlet temperature makes
      the stored average NaN. */
  lemma FlatCurveMakesNaN(s: System, i: Input, name: string)
    requires i.zones == [Airflow.Calculated(AirflowCap.FLAT_CURVE, AirflowCap.OneTach(name, 50.0), [name])]
    requires i.inletTemp.Num? && i.powerOn
    ensures Step(s, Call(i)).average.lastReading.NaN?
  {
    AirflowCap.FlatCurveReportsNaN(name);
    assert i.zones[..0] == [];
    assert SumZones(i.zones) == Some(Num(0.0).Plus(NaN));
    ReadingIsNaN(s.config, i);
  }

  /** After every run a stored average that is a number lies between two of its sources. */
  lemma {:induction false} AverageInHull(c: Config, es: seq<Event>)
    requires ConfigsOk(c, es) && ClockOk(es)
    ensures var a := Run(c, es).average;
      a.firstRead && a.lastReading.Num? ==> InHull(Sources(c, es), a.lastReading.val)
  {
    if es != [] {
      var n := |es| - 1;
      var init := es[..n];
      assert forall ev :: ev in init ==> ev in es;
      AverageInHull(c, init);
      LastTimeIsPast(c, init);
      ConfigAfter(c, init);
      var s, rs := Run(c, init), Sources(c, init);
      var a := s.average;
      if es[n].Recreated? {
        assert 0.0 in rs + [0.0];
      } else if ReadingOf(s, es[n]).Some? {
        if Run(c, es).average.lastReading.Num? {
          assert a.firstRead ==> a.lastTime <= es[n].i.time;
          SmoothedInHull(s.config, a, es[n].i, ReadingOf(s, es[n]).value.val, rs);
        }
      } else if a.firstRead && a.lastReading.Num? {
        HullGrows(rs, a.lastReading.val, []);
      }
    }
  }

  predicate Undisturbed(es: seq<Event>) {
    forall j :: 0 <= j < |es| ==> es[j].Call?
  }

  lemma {:induction false} SourcesAreReadings(c: Config, es: seq<Event>)
    requires Undisturbed(es)
    ensures Run(c, es).config == c
    ensures forall r :: r in Sources(c, es) ==> exists j :: 0 <= j < |es| && Instant(c, es[j].i) == Some(Num(r))
  {
    if es != [] {
      var n := |es| - 1;
      var init := es[..n];
      SourcesAreReadings(c, init);
      forall r | r in Sources(c, es) ensures exists j :: 0 <= j < |es| && Instant(c, es[j].i) == Some(Num(r)) {
        if r in Sources(c, init) {
          var j :| 0 <= j < n && Instant(c, init[j].i) == Some(Num(r));
          assert es[j] == init[j];
        } else {
          assert Instant(c, es[n].i) == Some(Num(r));
        }
      }
    }
  }

  /** While the object is not replaced, a stored average that is a number lies between the least
      and the greatest instantaneous reading seen so far. */
  lemma AverageBetweenReadings(c: Config, es: seq<Event>) returns (lo: real, hi: real)
    requires ConfigOk(c) && ClockOk(es) && Undisturbed(es)
    requires Run(c, es).average.firstRead && !NaNAveraged(c, es)
    ensures Run(c, es).average.lastReading.Num? && lo <= Run(c, es).average.lastReading.val <= hi
    ensures exists j :: 0 <= j < |es| && Instant(c, es[j].i) == Some(Num(lo))
    ensures exists k :: 0 <= k < |es| && Instant(c, es[k].i) == Some(Num(hi))
  {
    NaNStays(c, es);
    AverageInHull(c, es);
    SourcesAreReadings(c, es);
    lo, hi :| lo in Sources(c, es) && hi in Sources(c, es) && lo <= Run(c, es).average.lastReading.val <= hi;
  }

  // ----- A replaced object -----

  /** The numbers averaged since the object was last replaced. */
  function Since(c: Config, es: seq<Event>): seq<real> {
    if es == [] || es[|es| - 1].Recreated? then []
    else
      Since(c, es[..|es| - 1]) +
      match ReadingOf(Run(c, es[..|es| - 1]), es[|es| - 1]) case Some(Num(r)) => [r] case _ => []
  }

  /** The stored average, if it is a number, lies between two readings averaged since the object was
      last replaced, if there are any. */
  predicate HullNow(c: Config, es: seq<Event>) {
    var a := Run(c, es).average;
    Since(c, es) != [] && a.lastReading.Num? ==> InHull(Since(c, es), a.lastReading.val)
  }

  predicate HullThroughout(c: Config, es: seq<Event>) {
    HullNow(c, es) && (es == [] || HullThroughout(c, es[..|es| - 1]))
  }

  /** The step averages the first reading of a replaced object, which starts from 0 at time 0. */
  predicate StartsOver(c: Config, init: seq<Event>, ev: Event) {
    && Since(c, init) == [] && !NaNAveraged(c, init) && Run(c, init).average.firstRead
    && ReadingOf(Run(c, init), ev).Some? && ReadingOf(Run(c, init), ev).value.Num?
  }

  /** That reading is 0 or has weight 1. */
  predicate FullWeight(s: System, i: Input) {
    Instant(s.config, i) == Some(Num(0.0)) ||
    (TotalCFM(i.zones).Num? && Weight(s.config, TotalCFM(i.zones).val, i.time) == 1.0)
  }

  predicate AlwaysFullWeight(c: Config, es: seq<Event>) {
    es == [] ||
    var init, ev := es[..|es| - 1], es[|es| - 1];
    AlwaysFullWeight(c, init) && (StartsOver(c, init, ev) ==> FullWeight(Run(c, init), ev.i))
  }

  /** Until something has been averaged, a replaced object holds 0 and time 0. */
  lemma {:induction false} UntouchedIsZero(c: Config, es: seq<Event>)
    requires Since(c, es) == [] && !NaNAveraged(c, es)
    ensures Run(c, es).average.lastReading == Num(0.0) && Run(c, es).average.lastTime == 0
  {
    if es != [] && es[|es| - 1].Call? {
      UntouchedIsZero(c, es[..|es| - 1]);
    }
  }

  lemma AirflowIsNumber(c: Config, i: Input)
    requires Instant(c, i).Some? && Instant(c, i).value.Num?
    ensures TotalCFM(i.zones).Num?
  {
  }

  lemma HullOfOne(r: real, x: real)
    ensures InHull([r], x) <==> x == r
  {
    assert r in [r];
  }

  lemma FromZero(s: System, i: Input, r: real)
    requires s.average == Average(true, Num(0.0), 0) && Instant(s.config, i) == Some(Num(r)) && TotalCFM(i.zones).Num?
    ensures Step(s, Call(i)).average.lastReading ==
      Num(Blend(r, 0.0, Weight(s.config, TotalCFM(i.zones).val, i.time)))
  {
  }

  lemma FullWeightKeeps(s: System, i: Input, r: real)
    requires s.average == Average(true, Num(0.0), 0) && Instant(s.config, i) == Some(Num(r)) && TotalCFM(i.zones).Num?
    ensures Step(s, Call(i)).average.lastReading.Num?
    ensures Step(s, Call(i)).average.lastReading.val == r <==> FullWeight(s, i)
  {
    FromZero(s, i, r);
    ZeroBlend(r, Weight(s.config, TotalCFM(i.zones).val, i.time));
  }

  /** The first reading of a replaced object is where the hull can be left. */
  lemma FirstReadingStep(c: Config, init: seq<Event>, i: Input)
    requires StartsOver(c, init, Call(i))
    ensures HullNow(c, init + [Call(i)]) <==> FullWeight(Run(c, init), i)
  {
    var es, s := init + [Call(i)], Run(c, init);
    assert es[..|es| - 1] == init;
    UntouchedIsZero(c, init);
    AirflowIsNumber(s.config, i);
    var r := Instant(s.config, i).value.val;
    FullWeightKeeps(s, i, r);
    assert Since(c, es) == [r];
    HullOfOne(r, Step(s, Call(i)).average.lastReading.val);
  }

  /** Every other step stays in the hull. */
  lemma OtherStep(c: Config, init: seq<Event>, ev: Event)
    requires ConfigOk(Run(c, init).config) && HullNow(c, init) && !StartsOver(c, init, ev)
    requires ev.Call? ==> Run(c, init).average.lastTime <= ev.i.time
    ensures HullNow(c, init + [ev])
  {
    var es, s, rs := init + [ev], Run(c, init), Since(c, init);
    assert es[..|es| - 1] == init;
    NaNStays(c, init);
    match ReadingOf(s, ev)
    case Some(Num(r)) =>
      AirflowIsNumber(s.config, ev.i);
      if !s.average.firstRead {
        SmoothedInHull(s.config, s.average, ev.i, r, rs);
      } else if s.average.lastReading.Num? {
        assert rs != [];
        SmoothedInHull(s.config, s.average, ev.i, r, rs);
      }
    case _ =>
      if ev.Call? && rs != [] && s.average.lastReading.Num? { HullGrows(rs, s.average.lastReading.val, []); }
  }

  /** Over every run with any number of replacements: at every moment the stored average lies
      between two of the readings averaged since the object was last replaced, if and only if the
      first reading averaged after each replacement (once the process has averaged anything) is 0
      or has weight 1. */
  lemma {:induction false} HullIffFullWeight(c: Config, es: seq<Event>)
    requires ConfigsOk(c, es) && ClockOk(es)
    ensures HullThroughout(c, es) <==> AlwaysFullWeight(c, es)
  {
    if es != [] {
      var init, ev := es[..|es| - 1], es[|es| - 1];
      assert es == init + [ev] && forall e :: e in init ==> e in es;
      HullIffFullWeight(c, init);
      ConfigAfter(c, init);
      LastTimeIsPast(c, init);
      if StartsOver(c, init, ev) {
        FirstReadingStep(c, init, ev.i);
      } else if HullThroughout(c, init) {
        assert HullNow(c, init);
        assert ev.Call? ==> Run(c, init).average.lastTime <= ev.i.time;
        OtherStep(c, init, ev);
      }
    }
  }

  /** A replaced object starts from 0 instead of its first reading: that reading is reported
      unchanged exactly when its weight is 1 (enough seconds since boot) or it is 0 itself. */
  lemma RecreatedStartsFromZero(s: System, c: Config, i: Input, r: real)
    requires s.average.firstRead && Instant(c, i) == Some(Num(r)) && TotalCFM(i.zones).Num?
    ensures var s' := Step(Step(s, Recreated(c)), Call(i));
      s'.average.lastReading == Num(r) <==> r == 0.0 || Weight(c, TotalCFM(i.zones).val, i.time) == 1.0
  {
    FullWeightKeeps(Step(s, Recreated(c)), i, r);
  }

  lemma BlendFromZero(r: real, w: real)
    ensures Blend(r, 0.0, w) == r * w
  {
  }

  lemma FixedByFactor(r: real, w: real)
    ensures r * w == r <==> r == 0.0 || w == 1.0
  {
    if r * w == r && r != 0.0 {
      assert r * (w - 1.0) == 0.0;
    }
  }

  lemma ZeroBlend(r: real, w: real)
    ensures Blend(r, 0.0, w) == r <==> r == 0.0 || w == 1.0
  {
    BlendFromZero(r, w);
    FixedByFactor(r, w);
  }

  const SLOW := Config(1.0, 1.0, 1.0, 2.0, 0.01, 0.01, 0.0, 1.0)

  /** 100 watts in 176 CFM of air at 29 degrees: 30 degrees. */
  function Steady(seconds: nat): Input {
    Input([Some(Num(176.0))], Num(29.0), true, [Num(100.0)], seconds * NANOS)
  }

  lemma SteadyReads30(seconds: nat)
    ensures TotalCFM(Steady(seconds).zones) == Num(176.0) && Instant(SLOW, Steady(seconds)) == Some(Num(30.0))
  {
    var one := [Some(Num(176.0))];
    assert one[..0] == [] && [Num(100.0)][..0] == [];
    assert SumZones(one) == Some(Num(0.0).Plus(Num(176.0)));
    assert TotalPower([Num(100.0)]) == 100.0;
  }

  /** Two readings of 30 degrees with a replacement in between leave a stored average of 6: outside
      the hull of the readings. */
  lemma ReplacementLeavesHull()
    ensures Run(SLOW, [Call(Steady(10)), Recreated(SLOW), Call(Steady(20))]).average.lastReading == Num(6.0)
  {
    var es := [Call(Steady(10)), Recreated(SLOW), Call(Steady(20))];
    assert es[..2][..1] == es[..1] && es[..1][..0] == [];
    SteadyReads30(10);
    SteadyReads30(20);
    var s1 := Step(Run(SLOW, []), es[0]);
    assert Run(SLOW, es[..1]) == s1 && s1.average.firstRead;
    assert Run(SLOW, es[..2]) == Step(s1, es[1]);
    assert WholeSeconds(Steady(20).time) == 20;
    assert Weight(SLOW, 176.0, Steady(20).time) == 0.2;
  }
}
