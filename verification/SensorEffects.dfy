/** What each operation of a sensor leaves behind: alarms, availability, functional state and error
    count. */
module SensorEffects {
  import opened Basics
  import opened Thresholds
  import opened SchmittTrigger
  import opened SensorValue

  /** The alarm a check of the value `v` leaves, in terms of the threshold's lines. */
  predicate Checks(t: Threshold, v: Double, was: bool, now: bool) {
    now == if Crossed(t, v) then true else if BeyondBand(t, v) then false else was
  }

  /** Nothing but the engine's alarms and signals differs. */
  predicate SameButAlarms(s: Sensor, s': Sensor) {
    s' == s.(engine := s'.engine) && s'.engine.alarms.Keys == s.engine.alarms.Keys
  }

  lemma {:induction false} NowKeepsKeys(e: Engine, cs: seq<Change>)
    ensures ApplyAllNow(e, cs).alarms.Keys == e.alarms.Keys
  {
    if cs != [] { NowKeepsKeys(e, cs[..|cs| - 1]); }
  }

  lemma CheckEffect(s: Sensor, t: Threshold)
    requires KeysDistinct(s.thresholds) && t in s.thresholds && t.key in s.engine.alarms
    ensures SameButAlarms(s, Checked(s))
    ensures Checks(t, s.value, s.engine.alarms[t.key], Checked(s).engine.alarms[t.key])
  {
    NowKeepsKeys(s.engine, Changes(s.thresholds, s.value));
    CheckMoves(s.engine, s.thresholds, s.value, t);
  }

  lemma CheckMoves(e: Engine, ts: seq<Threshold>, v: Double, t: Threshold)
    requires KeysDistinct(ts) && t in ts && t.key in e.alarms
    ensures var e' := ApplyAllNow(e, Changes(ts, v));
      t.key in e'.alarms && Checks(t, v, e.alarms[t.key], e'.alarms[t.key])
  {
    ImmediateReading(e, ts, v, t.key);
    MovedIsVerdict(ts, v, t, e.alarms[t.key]);
    VerdictChecks(t, v, e.alarms[t.key]);
  }

  lemma VerdictChecks(t: Threshold, v: Double, was: bool)
    ensures Checks(t, v, was, match Verdict(t, v) case Some(a) => a case None => was)
  {
  }

  /** An update in good power that is not overridden: the remembered value is the reading or one
      within the publish hysteresis of it, and each registered alarm is what that value says. */
  lemma GoodUpdateEffect(k: Setup, s: Sensor, v: Double, t: Threshold)
    requires !s.overridden && KeysDistinct(s.thresholds) && t in s.thresholds && t.key in s.engine.alarms
    ensures var s' := Update(k, s, v, true);
      && t.key in s'.engine.alarms && Checks(t, s'.value, s.engine.alarms[t.key], s'.engine.alarms[t.key])
      && (if v.NaN? != s.value.NaN? || (v.Num? && Abs(v.val - s.value.val) > k.hysteresisPublish)
          then s'.value == v && s'.published == v
          else s'.value == s.value && s'.published == s.published)
  {
    CheckEffect(Publish(k, s, v), t);
  }

  /** A number makes the sensor functional and available, where it has these properties, and forgets
      its errors; NaN leaves all three alone. */
  lemma GoodUpdateMarks(k: Setup, s: Sensor, v: Double)
    requires !s.overridden
    ensures var s' := Update(k, s, v, true);
      && s'.overridden == s.overridden && s'.thresholds == s.thresholds
      && (s'.functional.Some? <==> s.functional.Some?) && (s'.available.Some? <==> s.available.Some?)
      && (if v.Num? then
            && (s.functional.Some? ==> s'.functional.value) && (s.available.Some? ==> s'.available.value)
            && s'.errCount == 0
          else s'.functional == s.functional && s'.available == s.available && s'.errCount == s.errCount)
  {
  }

  /** In bad power: nothing is remembered or published, errors are forgotten where the sensor is one
      that can be unavailable, and the functional state stays. */
  lemma BadUpdateMarks(k: Setup, s: Sensor, v: Double)
    requires !s.overridden
    ensures var s' := Update(k, s, v, false);
      && s'.value.NaN? && (s.value.Num? ==> s'.published.NaN?)
      && s'.functional == s.functional && s'.thresholds == s.thresholds
      && (s.available.Some? ==> s'.available == Some(false) && s'.errCount == 0)
      && (s.available.None? ==> s'.available.None? && s'.errCount == s.errCount)
  {
  }

  // ----- Runs of readings -----

  function Readings(k: Setup, s: Sensor, vs: seq<Double>): Sensor {
    if vs == [] then s else Update(k, Readings(k, s, vs[..|vs| - 1]), vs[|vs| - 1], true)
  }

  /** What the sensor remembers after each of the readings. */
  function Remembered(k: Setup, s: Sensor, vs: seq<Double>): seq<Double> {
    if vs == [] then [] else Remembered(k, s, vs[..|vs| - 1]) + [Readings(k, s, vs).value]
  }

  lemma {:induction false} ReadingsKeep(k: Setup, s: Sensor, vs: seq<Double>)
    requires !s.overridden
    ensures var s' := Readings(k, s, vs);
      !s'.overridden && s'.thresholds == s.thresholds && s'.engine.alarms.Keys == s.engine.alarms.Keys
  {
    if vs != [] {
      var mid := Readings(k, s, vs[..|vs| - 1]);
      ReadingsKeep(k, s, vs[..|vs| - 1]);
      GoodUpdateMarks(k, mid, vs[|vs| - 1]);
      var p := Publish(k, mid, vs[|vs| - 1]);
      NowKeepsKeys(p.engine, Changes(p.thresholds, p.value));
    }
  }

  /** After any run of readings in good power, each alarm is the trigger of the remembered values. */
  lemma {:induction false} ReadingsAreTrigger(k: Setup, s: Sensor, vs: seq<Double>, t: Threshold)
    requires !s.overridden && KeysDistinct(s.thresholds) && t in s.thresholds
    requires t.key in s.engine.alarms && !s.engine.alarms[t.key]
    ensures t.key in Readings(k, s, vs).engine.alarms
    ensures Readings(k, s, vs).engine.alarms[t.key] == AlarmAfter(t, Remembered(k, s, vs))
  {
    if vs != [] {
      var init := vs[..|vs| - 1];
      ReadingsAreTrigger(k, s, init, t);
      ReadingsKeep(k, s, init);
      GoodUpdateEffect(k, Readings(k, s, init), vs[|vs| - 1], t);
      var rs, r := Remembered(k, s, init), Readings(k, s, vs).value;
      assert (rs + [r])[..|rs|] == rs;
    }
  }

  // ----- Errors -----

  function Errors(k: Setup, s: Sensor, n: nat, powerGood: bool): Sensor {
    if n == 0 then s else CountError(k, Errors(k, s, n - 1, powerGood), powerGood)
  }

  /** In good power four consecutive errors only count; the fifth makes the sensor not functional and
      forgets its value; more change nothing. Availability is not touched. */
  lemma {:induction false} FifthError(k: Setup, s: Sensor, n: nat)
    requires !s.overridden && s.errCount == 0
    ensures var s' := Errors(k, s, n, true);
      && s'.available == s.available && s'.thresholds == s.thresholds
      && (n < 5 ==> s' == s.(errCount := n))
      && (n >= 5 ==>
            && s'.errCount == 5 && s'.value.NaN? && (s.value.Num? ==> s'.published.NaN?)
            && (if s.functional.Some? then s'.functional == Some(false) else s'.functional.None?))
  {
    if n > 0 { FifthError(k, s, n - 1); }
  }

  /** In bad power the first error already makes the sensor unavailable, and none is counted. */
  lemma ErrorInBadPower(k: Setup, s: Sensor)
    requires !s.overridden && s.available.Some?
    ensures var s' := CountError(k, s, false);
      && s'.available == Some(false) && s'.errCount == 0 && s'.functional == s.functional
      && (s.available.value ==> s'.value.NaN?) && (!s.available.value ==> s'.value == s.value)
  {
  }

  // ----- Marking -----

  /** Marking available sets the property and forgets errors, and nothing else. */
  lemma MarkedAvailableEffect(k: Setup, s: Sensor, powerGood: bool)
    requires s.available.Some?
    ensures Available(k, s, true, powerGood) == s.(available := Some(true), errCount := 0)
  {
    match s.available
    case Some(b) => assert b || s.available == Some(false);
  }

  /** Marking unavailable forgets the value as well, unless it was unavailable or is overridden. */
  lemma MarkedUnavailableEffect(k: Setup, s: Sensor, powerGood: bool)
    requires s.available.Some?
    ensures var s' := Available(k, s, false, powerGood);
      && s'.available == Some(false) && s'.errCount == 0 && s'.functional == s.functional
      && (if s.available.value && !s.overridden then s'.value.NaN? else s'.value == s.value)
  {
  }

  lemma MarkedFunctionalEffect(k: Setup, s: Sensor, b: bool, powerGood: bool)
    requires s.functional.Some? && !s.overridden
    ensures var s' := Functional(k, s, b, powerGood);
      && s'.functional == Some(b)
      && (b ==> s' == s.(functional := Some(true), errCount := 0))
      && (!b ==> s'.value.NaN? && (powerGood ==> s'.available == s.available && s'.errCount == s.errCount))
  {
  }

  // ----- External values -----

  /** A client's value is remembered and published as it is, overrides, and is checked. */
  lemma ExternalSetEffect(s: Sensor, v: Double, t: Threshold)
    requires KeysDistinct(s.thresholds) && t in s.thresholds && t.key in s.engine.alarms
    ensures var s' := ExternalSet(s, v);
      && s'.value == v && s'.published == v && s'.overridden
      && s'.available == s.available && s'.functional == s.functional && s'.errCount == s.errCount
      && t.key in s'.engine.alarms && Checks(t, v, s.engine.alarms[t.key], s'.engine.alarms[t.key])
  {
    CheckEffect(s.(published := v, overridden := true, value := v), t);
  }

  /** While overridden, no reading and no power state reaches the value, the alarms or the marks. */
  lemma OverrideHolds(k: Setup, s: Sensor, v: Double, powerGood: bool)
    requires s.overridden
    ensures Update(k, s, v, powerGood) == s
    ensures Available(k, s, false, powerGood).value == s.value
    ensures Functional(k, s, false, powerGood) == s.(functional := if s.functional.Some? then Some(false) else None)
  {
  }

  /** A written limit takes the place of the old one, and the value is forgotten but stays published. */
  lemma ThresholdWrittenEffect(s: Sensor, i: nat, v: Double)
    requires i < |s.thresholds|
    ensures var s' := ThresholdWritten(s, i, v);
      && s'.thresholds[i] == Threshold(s.thresholds[i].key, v, s.thresholds[i].hysteresis)
      && |s'.thresholds| == |s.thresholds|
      && (forall j :: 0 <= j < |s.thresholds| && j != i ==> s'.thresholds[j] == s.thresholds[j])
      && s'.value.NaN? && s' == s.(thresholds := s'.thresholds, value := NaN)
  {
  }
}
