/** What one call of the exit air calculation reports, in terms of the airflow, the power, the inlet
    temperature and the configured end points. */
module ExitAirLaws {
  import opened Basics
  import opened ExitAir

  /** The straight line through (qMin, lo) and (qMax, hi), without a division. */
  predicate OnLine(c: Config, lo: real, hi: real, q: real, f: real) {
    (f - lo) * (c.qMax - c.qMin) == (hi - lo) * (q - c.qMin)
  }

  /** The power factor for an airflow `q`. */
  predicate FactorIs(c: Config, q: real, f: real) {
    if q <= c.qMin then f == c.powerFactorMin
    else if q >= c.qMax then f == c.powerFactorMax
    else OnLine(c, c.powerFactorMin, c.powerFactorMax, q, f)
  }

  /** The smoothing per second for an airflow `q`. */
  predicate AlphaIs(c: Config, q: real, alpha: real) {
    if q < c.qMin then alpha == c.alphaS
    else if q >= c.qMax then alpha == c.alphaF
    else OnLine(c, c.alphaS, c.alphaF, q, alpha)
  }

  lemma SlopeTimes(rise: real, part: real, whole: real)
    requires whole != 0.0
    ensures rise / whole * part * whole == rise * part
  {
    var slope := rise / whole;
    assert slope * whole == rise;
    assert slope * part * whole == slope * whole * part;
  }

  lemma ShareTimes(rise: real, part: real, whole: real)
    requires whole != 0.0
    ensures rise * part / whole * whole == rise * part
  {
  }

  lemma LineFromShare(c: Config, lo: real, hi: real, q: real, share: real)
    requires share * (c.qMax - c.qMin) == (hi - lo) * (q - c.qMin)
    ensures OnLine(c, lo, hi, q, lo + share)
  {
    assert (lo + share) - lo == share;
  }

  lemma FactorLaw(c: Config, q: real) returns (f: real)
    ensures PowerFactor(c, Num(q)) == Num(f) && FactorIs(c, q, f)
  {
    f := PowerFactor(c, Num(q)).val;
    if c.qMin < q < c.qMax {
      var share := (c.powerFactorMax - c.powerFactorMin) / (c.qMax - c.qMin) * (q - c.qMin);
      SlopeTimes(c.powerFactorMax - c.powerFactorMin, q - c.qMin, c.qMax - c.qMin);
      LineFromShare(c, c.powerFactorMin, c.powerFactorMax, q, share);
    }
  }

  lemma AlphaLaw(c: Config, q: real)
    ensures AlphaIs(c, q, Alpha(c, q))
  {
    if c.qMin <= q < c.qMax {
      var share := (c.alphaF - c.alphaS) * (q - c.qMin) / (c.qMax - c.qMin);
      ShareTimes(c.alphaF - c.alphaS, q - c.qMin, c.qMax - c.qMin);
      LineFromShare(c, c.alphaS, c.alphaF, q, share);
    }
  }

  lemma MeanOnLine(c: Config, lo: real, hi: real, x: real, y: real, a: real, b: real)
    requires OnLine(c, lo, hi, x, a) && OnLine(c, lo, hi, y, b)
    ensures OnLine(c, lo, hi, (x + y) / 2.0, (a + b) / 2.0)
  {
    var d, rise := c.qMax - c.qMin, hi - lo;
    assert ((a + b) / 2.0 - lo) * d == ((a - lo) * d + (b - lo) * d) / 2.0;
    assert rise * ((x + y) / 2.0 - c.qMin) == (rise * (x - c.qMin) + rise * (y - c.qMin)) / 2.0;
  }

  /** Midway between two airflows inside the range, the factor and the smoothing are the means of
      theirs. */
  lemma MidpointsAreMeans(c: Config, x: real, y: real, a: real, b: real)
    requires c.qMin < x < c.qMax && c.qMin < y < c.qMax
    ensures FactorIs(c, x, a) && FactorIs(c, y, b) ==> FactorIs(c, (x + y) / 2.0, (a + b) / 2.0)
    ensures AlphaIs(c, x, a) && AlphaIs(c, y, b) ==> AlphaIs(c, (x + y) / 2.0, (a + b) / 2.0)
  {
    if FactorIs(c, x, a) && FactorIs(c, y, b) {
      MeanOnLine(c, c.powerFactorMin, c.powerFactorMax, x, y, a, b);
    }
    if AlphaIs(c, x, a) && AlphaIs(c, y, b) {
      MeanOnLine(c, c.alphaS, c.alphaF, x, y, a, b);
    }
  }

  // ----- The inputs -----

  /** NaN powers are left out, all others count once. */
  lemma {:induction false} PowersAdd(a: seq<Double>, b: seq<Double>)
    ensures TotalPower(a + b) == TotalPower(a) + TotalPower(b)
    ensures forall p :: TotalPower([Num(p)]) == p
    ensures TotalPower([NaN]) == 0.0 && TotalPower([]) == 0.0
  {
    forall d ensures TotalPower([d]) == match d case NaN => 0.0 case Num(p) => p {
      assert [d][..0] == [];
    }
    if b == [] {
      assert a + b == a;
    } else {
      PowersAdd(a, b[..|b| - 1]);
      assert (a + b)[..|a + b| - 1] == a + b[..|b| - 1];
    }
  }

  /** One zone that fails makes the airflow -1; otherwise the zones add up. */
  lemma {:induction false} ZonesAdd(zones: seq<Option<Double>>, z: Option<Double>)
    ensures SumZones(zones + [z]).None? <==> z.None? || SumZones(zones).None?
    ensures z.None? ==> TotalCFM(zones + [z]) == Num(-1.0)
    ensures z.Some? && SumZones(zones).Some? ==> TotalCFM(zones + [z]) == TotalCFM(zones).Plus(z.value)
    ensures SumZones(zones).None? ==> TotalCFM(zones + [z]) == Num(-1.0)
    ensures TotalCFM([]) == Num(0.0)
  {
    assert (zones + [z])[..|zones|] == zones;
  }

  // ----- One call -----

  lemma Quotient(h: real, a: real, q: real, inlet: real)
    requires q != 0.0
    ensures (ExitTemperature(h, a, q, inlet) - inlet) * q == 1.76 * a * h
  {
    var share := 1.76 * h * a / q;
    assert share * q == 1.76 * h * a;
  }

  /** For a number airflow `q`, the instantaneous reading exceeds the inlet temperature by 1.76 times
      the altitude factor times the corrected power over the airflow. */
  lemma ReadingLaw(c: Config, i: Input, q: real) returns (f: real)
    requires TotalCFM(i.zones) == Num(q)
    ensures FactorIs(c, q, f)
    ensures Instant(c, i).Some? ==>
      && Instant(c, i).value.Num? && i.inletTemp.Num?
      && (Instant(c, i).value.val - i.inletTemp.val) * q
         == 1.76 * c.altitudeFactor * (TotalPower(i.powers) * f + c.pOffset)
    ensures Instant(c, i).None? <==>
      || q <= 0.0 || q < c.qMin * 0.5 || i.inletTemp.NaN? || !i.powerOn
      || TotalPower(i.powers) * f + c.pOffset == 0.0
  {
    f := FactorLaw(c, q);
    HeatIs(c, i, q, f);
    if Instant(c, i).Some? {
      InstantIs(c, i, q);
      Quotient(Heat(c, i).val, c.altitudeFactor, q, i.inletTemp.val);
    }
  }

  lemma HeatIs(c: Config, i: Input, q: real, f: real)
    requires TotalCFM(i.zones) == Num(q) && PowerFactor(c, Num(q)) == Num(f)
    ensures Heat(c, i) == Num(TotalPower(i.powers) * f + c.pOffset)
  {
  }

  lemma InstantIs(c: Config, i: Input, q: real)
    requires TotalCFM(i.zones) == Num(q) && Instant(c, i).Some?
    ensures q != 0.0 && i.inletTemp.Num? && Heat(c, i).Num?
    ensures Instant(c, i) == Some(Num(ExitTemperature(Heat(c, i).val, c.altitudeFactor, q, i.inletTemp.val)))
  {
  }

  /** What the call reports and leaves: nothing new without a reading; the inlet temperature while
      power is off; otherwise the average, at the time of the call. */
  lemma CallLaw(c: Config, a: Average, i: Input, q: real)
    requires TotalCFM(i.zones) == Num(q)
    ensures q <= 0.0 || q < c.qMin * 0.5 || i.inletTemp.NaN? ==> Reported(c, a, i).None? && Next(c, a, i) == a
    ensures q > 0.0 && q >= c.qMin * 0.5 && i.inletTemp.Num? && !i.powerOn ==>
      Reported(c, a, i) == Some(i.inletTemp) && Next(c, a, i) == a
    ensures i.powerOn && Instant(c, i).None? ==> Reported(c, a, i).None? && Next(c, a, i) == a
    ensures i.powerOn && Instant(c, i).Some? ==>
      var a' := Next(c, a, i);
      a'.firstRead && a'.lastTime == i.time && Reported(c, a, i) == Some(a'.lastReading)
  {
  }

  /** `secs` are the whole seconds in `nanos`, truncated toward zero. */
  predicate SecondsOf(nanos: int, secs: int) {
    if nanos >= 0 then secs * 1000000000 <= nanos < (secs + 1) * 1000000000
    else (secs - 1) * 1000000000 < nanos <= secs * 1000000000
  }

  /** The product of the seconds and the smoothing per second, capped at 1. */
  predicate WeightIs(secs: real, alpha: real, w: real) {
    w == if secs * alpha > 1.0 then 1.0 else secs * alpha
  }

  lemma SecondsLaw(nanos: int)
    ensures SecondsOf(nanos, WholeSeconds(nanos))
  {
  }

  lemma CapIs(secs: real, alpha: real, w: real)
    requires w == if Times(secs, alpha) > 1.0 then 1.0 else Times(secs, alpha)
    ensures WeightIs(secs, alpha, w)
  {
  }

  lemma WeightLaw(c: Config, q: real, nanos: int) returns (secs: int, alpha: real)
    ensures SecondsOf(nanos, secs) && AlphaIs(c, q, alpha) && WeightIs(secs as real, alpha, Weight(c, q, nanos))
  {
    secs, alpha := WholeSeconds(nanos), Alpha(c, q);
    AlphaLaw(c, q);
    SecondsLaw(nanos);
    CapIs(secs as real, alpha, Weight(c, q, nanos));
  }

  /** The stored average moves toward the reading by its weighted difference; the first reading of
      the process is stored as it is. */
  lemma AverageLaw(c: Config, a: Average, i: Input, q: real, r: real) returns (secs: int, alpha: real, w: real)
    requires TotalCFM(i.zones) == Num(q) && Instant(c, i) == Some(Num(r))
    requires a.firstRead ==> a.lastReading.Num?
    ensures Next(c, a, i).lastReading.Num?
    ensures !a.firstRead ==> Next(c, a, i).lastReading.val == r
    ensures a.firstRead ==>
      && SecondsOf(i.time - a.lastTime, secs) && AlphaIs(c, q, alpha) && WeightIs(secs as real, alpha, w)
      && Next(c, a, i).lastReading.val - a.lastReading.val == w * (r - a.lastReading.val)
  {
    var nanos := if a.firstRead then i.time - a.lastTime else 0;
    var last := if a.firstRead then a.lastReading.val else r;
    w := Weight(c, q, nanos);
    secs, alpha := WeightLaw(c, q, nanos);
    BlendMoves(r, last, w);
    assert Next(c, a, i).lastReading == Num(Blend(r, last, w));
  }

  lemma BlendMoves(r: real, last: real, w: real)
    ensures Blend(r, last, w) - last == w * (r - last)
    ensures r == last ==> Blend(r, last, w) == r
  {
  }

  /** A worked call: 100 watts in 200 CFM above qMax, air at 29 degrees. */
  const RANGED := Config(0.5, 1.0, 50.0, 150.0, 0.1, 0.2, 0.0, 1.0)

  lemma RangedExample(i: Input)
    requires TotalCFM(i.zones) == Num(200.0) && TotalPower(i.powers) == 100.0
    requires i.inletTemp == Num(29.0) && i.powerOn
    ensures Instant(RANGED, i) == Some(Num(29.88))
  {
    var f := ReadingLaw(RANGED, i, 200.0);
    assert f == 1.0;
  }
}
