/** The debounced, latching leak detector of src/LeakDetectSensor.cpp. */
module LeakDetect {
  import opened Basics

  datatype DetectorState = Normal | Leakage | Fault

  datatype Limits = Limits(sensorMax: real, sensorMin: real, shutdownOnLeak: bool)

  /** The fields of the sensor, and what entering a state has triggered so far. */
  datatype Detector = Detector(
    state: DetectorState, leakDetectedCount: nat, value: Double, sensorOverride: bool, leakThreshold: Double,
    criticalLogs: nat, faultLogs: nat, shutdownsStarted: nat)

  const LEAK_DETECTED_COUNT_THRES := 3

  // ----- Specification -----

  predicate OutOfRange(c: Limits, v: Double) {
    v.NaN? || v.val > c.sensorMax || v.val < c.sensorMin
  }

  predicate StrictlyInside(c: Limits, v: Double) {
    v.Num? && c.sensorMin < v.val < c.sensorMax
  }

  /** `setDetectorState`: only a change acts. */
  function Enter(c: Limits, d: Detector, s: DetectorState): Detector {
    if d.state == s then d
    else
      match s
      case Leakage => d.(state := s, criticalLogs := d.criticalLogs + 1,
                         shutdownsStarted := d.shutdownsStarted + if c.shutdownOnLeak then 1 else 0)
      case Fault => d.(state := s, faultLogs := d.faultLogs + 1)
      case Normal => d.(state := s)
  }

  /** `determineDetectorState` */
  function Evaluate(c: Limits, d: Detector, v: Double): Detector {
    match d.state
    case Normal =>
      if OutOfRange(c, v) then Enter(c, d, Fault)
      else if v.Less(d.leakThreshold) then
        var d' := d.(leakDetectedCount := d.leakDetectedCount + 1);
        if d'.leakDetectedCount >= LEAK_DETECTED_COUNT_THRES then Enter(c, d', Leakage) else d'
      else d.(leakDetectedCount := 0)
    case Fault => if StrictlyInside(c, v) then Enter(c, d, Normal) else d
    case Leakage => d
  }

  /** The setter of the D-Bus property Value: a client's write overrides the sensor for good. */
  function SetValue(c: Limits, d: Detector, v: Double, internal: bool): Detector {
    var d' := if !internal then d.(value := v, sensorOverride := true)
              else if !d.sensorOverride then d.(value := v)
              else d;
    Evaluate(c, d', d'.value)
  }

  /** The C++ comparison `!=`: NaN differs from everything, itself included. */
  predicate Differs(a: Double, b: Double) {
    a.NaN? || b.NaN? || a.val != b.val
  }

  function Poll(c: Limits, d: Detector, reading: Double): Detector {
    if Differs(d.value, reading) then SetValue(c, d, reading, true) else d
  }

  // ----- The source's own form -----

  class LeakDetectSensor {
    const limits: Limits
    var detectorState: DetectorState
    var leakDetectedCount: nat
    var detectorValue: Double
    var sensorOverride: bool
    var internalValueSet: bool
    var leakThreshold: Double
    var criticalLogs: nat
    var faultLogs: nat
    var shutdownsStarted: nat

    ghost function View(): Detector reads this {
      Detector(detectorState, leakDetectedCount, detectorValue, sensorOverride, leakThreshold,
               criticalLogs, faultLogs, shutdownsStarted)
    }

    /** Without a device the detector starts in the fault state. */
    constructor (limits: Limits, threshold: Double, hasDevice: bool)
      ensures this.limits == limits && !internalValueSet
      ensures View() == if hasDevice then Detector(Normal, 0, NaN, false, threshold, 0, 0, 0)
                        else Detector(Fault, 0, NaN, false, threshold, 0, 1, 0)
    {
      this.limits := limits;
      detectorState, leakDetectedCount, detectorValue := Normal, 0, NaN;
      sensorOverride, internalValueSet, leakThreshold := false, false, threshold;
      criticalLogs, faultLogs, shutdownsStarted := 0, 0, 0;
      new;
      if !hasDevice {
        SetDetectorState(Fault);
      }
    }

    method SetDetectorState(newDetectorState: DetectorState)
      modifies this`detectorState, this`criticalLogs, this`faultLogs, this`shutdownsStarted
      ensures View() == Enter(limits, old(View()), newDetectorState)
    {
      if detectorState != newDetectorState {
        detectorState := newDetectorState;
        match detectorState {
          case Leakage =>
            criticalLogs := criticalLogs + 1;
            if limits.shutdownOnLeak {
              shutdownsStarted := shutdownsStarted + 1;
            }
          case Fault => faultLogs := faultLogs + 1;
          case Normal =>
        }
      }
    }

    method DetermineDetectorState(value: Double)
      modifies this`detectorState, this`leakDetectedCount, this`criticalLogs, this`faultLogs, this`shutdownsStarted
      ensures View() == Evaluate(limits, old(View()), value)
    {
      match detectorState {
        case Normal =>
          if value.NaN? || value.val > limits.sensorMax || value.val < limits.sensorMin {
            SetDetectorState(Fault);
          } else if value.Less(leakThreshold) {
            leakDetectedCount := leakDetectedCount + 1;
            if leakDetectedCount >= LEAK_DETECTED_COUNT_THRES {
              SetDetectorState(Leakage);
            }
          } else {
            leakDetectedCount := 0;
          }
        case Fault =>
          if value.Num? && value.val < limits.sensorMax && value.val > limits.sensorMin {
            SetDetectorState(Normal);
          }
        case Leakage =>
      }
    }

    method ValueSetter(newValue: Double)
      modifies this
      ensures View() == SetValue(limits, old(View()), newValue, old(internalValueSet))
      ensures internalValueSet == old(internalValueSet)
    {
      if !internalValueSet {
        detectorValue := newValue;
        sensorOverride := true;
      } else if !sensorOverride {
        detectorValue := newValue;
      }
      DetermineDetectorState(detectorValue);
    }

    method HandleResponse(newValue: Double)
      requires !internalValueSet
      modifies this
      ensures View() == Poll(limits, old(View()), newValue) && !internalValueSet
    {
      if Differs(detectorValue, newValue) {
        internalValueSet := true;
        ValueSetter(newValue);
        internalValueSet := false;
      }
    }

    method ThresholdSetter(newValue: Double)
      modifies this`leakThreshold
      ensures View() == old(View()).(leakThreshold := newValue)
    {
      leakThreshold := newValue;
    }
  }

  // ----- Whole runs -----

  datatype Event = Polled(reading: Double) | ClientSetsValue(v: Double) | ClientSetsThreshold(t: Double)

  function Step(c: Limits, d: Detector, ev: Event): Detector {
    match ev
    case Polled(reading) => Poll(c, d, reading)
    case ClientSetsValue(v) => SetValue(c, d, v, false)
    case ClientSetsThreshold(t) => d.(leakThreshold := t)
  }

  function Run(c: Limits, d: Detector, es: seq<Event>): Detector {
    if es == [] then d else Step(c, Run(c, d, es[..|es| - 1]), es[|es| - 1])
  }

  /** A value that was evaluated, with the threshold of that moment. */
  datatype Evaluation = Evaluation(v: Double, threshold: Double)

  function Evaluated(c: Limits, d: Detector, es: seq<Event>): seq<Evaluation> {
    if es == [] then []
    else
      var before, ev := Run(c, d, es[..|es| - 1]), es[|es| - 1];
      Evaluated(c, d, es[..|es| - 1]) +
      match ev
      case Polled(reading) =>
        if !Differs(before.value, reading) then []
        else [Evaluation(if before.sensorOverride then before.value else reading, before.leakThreshold)]
      case ClientSetsValue(v) => [Evaluation(v, before.leakThreshold)]
      case ClientSetsThreshold(_) => []
  }

  // ----- An independent definition of a leak -----

  predicate Within(c: Limits, v: Double) {
    v.Num? && c.sensorMin <= v.val <= c.sensorMax
  }

  predicate WellWithin(c: Limits, v: Double) {
    v.Num? && c.sensorMin < v.val < c.sensorMax
  }

  /** Whether the sensor counts as faulty after these values, leaks aside: a healthy sensor becomes
      faulty outside its limits, a faulty one healthy strictly inside them. */
  predicate Faulty(c: Limits, faulty: bool, vs: seq<Evaluation>) {
    if vs == [] then faulty
    else
      var v := vs[|vs| - 1].v;
      if Faulty(c, faulty, vs[..|vs| - 1]) then !WellWithin(c, v) else !Within(c, v)
  }

  predicate Below(e: Evaluation) {
    e.v.Num? && e.threshold.Num? && e.v.val < e.threshold.val
  }

  /** The in-range values evaluated while the sensor was not faulty: true for those below the
      threshold. A fault in between leaves no trace here. */
  function Counted(c: Limits, faulty: bool, vs: seq<Evaluation>): seq<bool> {
    if vs == [] then []
    else
      var init, e := vs[..|vs| - 1], vs[|vs| - 1];
      Counted(c, faulty, init) + if Faulty(c, faulty, init) || !Within(c, e.v) then [] else [Below(e)]
  }

  /** How many of the last values were below the threshold, without interruption. */
  function Trailing(bs: seq<bool>): nat {
    if bs == [] || !bs[|bs| - 1] then 0 else 1 + Trailing(bs[..|bs| - 1])
  }

  predicate ThreeInARow(bs: seq<bool>) {
    exists k :: 0 <= k && k + 2 < |bs| && bs[k] && bs[k + 1] && bs[k + 2]
  }

  lemma {:induction false} TrailingIsRun(bs: seq<bool>)
    ensures Trailing(bs) <= |bs|
    ensures forall k :: |bs| - Trailing(bs) <= k < |bs| ==> bs[k]
    ensures Trailing(bs) < |bs| ==> !bs[|bs| - Trailing(bs) - 1]
  {
    if bs != [] && bs[|bs| - 1] { TrailingIsRun(bs[..|bs| - 1]); }
  }

  lemma ThreeInARowGrows(bs: seq<bool>, b: bool)
    ensures ThreeInARow(bs + [b]) <==> ThreeInARow(bs) || (b && Trailing(bs) >= 2)
  {
    var bs' := bs + [b];
    TrailingIsRun(bs);
    if ThreeInARow(bs) {
      var k :| 0 <= k && k + 2 < |bs| && bs[k] && bs[k + 1] && bs[k + 2];
      assert bs'[k] && bs'[k + 1] && bs'[k + 2];
    } else if b && Trailing(bs) >= 2 {
      var k := |bs| - 2;
      assert bs'[k] && bs'[k + 1] && bs'[k + 2];
    }
  }

  /** The detector agrees with the definition: it has seen a leak exactly when there were three
      in a row; otherwise its count is the trailing number and its state the health. */
  ghost predicate Agrees(c: Limits, d: Detector, faulty: bool, vs: seq<Evaluation>) {
    AgreesWith(c, d, Faulty(c, faulty, vs), Counted(c, faulty, vs))
  }

  ghost predicate AgreesWith(c: Limits, d: Detector, nowFaulty: bool, bs: seq<bool>) {
    && (d.state == Leakage <==> ThreeInARow(bs))
    && (d.state != Leakage ==>
          && d.leakDetectedCount == Trailing(bs) < LEAK_DETECTED_COUNT_THRES
          && (d.state == Fault <==> nowFaulty))
    && d.criticalLogs == (if d.state == Leakage then 1 else 0)
    && d.shutdownsStarted == (if d.state == Leakage && c.shutdownOnLeak then 1 else 0)
  }

  lemma EvaluationAdds(c: Limits, faulty: bool, vs: seq<Evaluation>, e: Evaluation)
    ensures var was, vs' := Faulty(c, faulty, vs), vs + [e];
      && Faulty(c, faulty, vs') == (if was then !WellWithin(c, e.v) else !Within(c, e.v))
      && Counted(c, faulty, vs') == Counted(c, faulty, vs) + if was || !Within(c, e.v) then [] else [Below(e)]
  {
    assert (vs + [e])[..|vs|] == vs;
  }

  /** A value that does not count, in a healthy or a faulty sensor. */
  lemma UncountedValue(c: Limits, d: Detector, nowFaulty: bool, bs: seq<bool>, v: Double)
    requires AgreesWith(c, d, nowFaulty, bs) && (nowFaulty || !Within(c, v))
    ensures AgreesWith(c, Evaluate(c, d, v), if nowFaulty then !WellWithin(c, v) else !Within(c, v), bs)
  {
  }

  lemma LatchedValue(c: Limits, d: Detector, nowFaulty: bool, bs: seq<bool>, v: Double, b: bool)
    requires AgreesWith(c, d, nowFaulty, bs) && d.state == Leakage
    ensures AgreesWith(c, Evaluate(c, d, v), !Within(c, v), bs + [b])
  {
    ThreeInARowGrows(bs, b);
  }

  lemma CountedValue(c: Limits, d: Detector, bs: seq<bool>, v: Double)
    requires AgreesWith(c, d, false, bs) && d.state != Leakage && Within(c, v)
    ensures AgreesWith(c, Evaluate(c, d, v), false, bs + [Below(Evaluation(v, d.leakThreshold))])
  {
    var b := Below(Evaluation(v, d.leakThreshold));
    ThreeInARowGrows(bs, b);
    assert (bs + [b])[..|bs|] == bs;
  }

  lemma EvaluateAgrees(c: Limits, d: Detector, faulty: bool, vs: seq<Evaluation>, v: Double)
    requires Agrees(c, d, faulty, vs)
    ensures Agrees(c, Evaluate(c, d, v), faulty, vs + [Evaluation(v, d.leakThreshold)])
  {
    var was, bs := Faulty(c, faulty, vs), Counted(c, faulty, vs);
    EvaluationAdds(c, faulty, vs, Evaluation(v, d.leakThreshold));
    if was || !Within(c, v) {
      assert bs + [] == bs;
      UncountedValue(c, d, was, bs, v);
    } else if d.state == Leakage {
      LatchedValue(c, d, was, bs, v, Below(Evaluation(v, d.leakThreshold)));
    } else {
      CountedValue(c, d, bs, v);
    }
  }

  /** Over every run of polls, client writes and threshold changes: the detector reports a leak
      exactly when three below-threshold values in a row have been evaluated while it was healthy,
      faults neither counting nor resetting; and then it logged and started a shutdown once. */
  lemma {:induction false} LeakIsThreeInARow(c: Limits, d: Detector, es: seq<Event>)
    requires d.state != Leakage && d.leakDetectedCount == d.criticalLogs == d.shutdownsStarted == 0
    ensures Agrees(c, Run(c, d, es), d.state == Fault, Evaluated(c, d, es))
  {
    if es == [] {
      assert !ThreeInARow([]);
    } else {
      var init, ev := es[..|es| - 1], es[|es| - 1];
      var before := Run(c, d, init);
      var vs := Evaluated(c, d, init);
      LeakIsThreeInARow(c, d, init);
      var written := match ev
        case Polled(reading) => if before.sensorOverride then before else before.(value := reading)
        case ClientSetsValue(v) => before.(value := v, sensorOverride := true)
        case ClientSetsThreshold(t) => before.(leakThreshold := t);
      if ev.ClientSetsThreshold? || (ev.Polled? && !Differs(before.value, ev.reading)) {
        assert Evaluated(c, d, es) == vs;
      } else {
        EvaluateAgrees(c, written, d.state == Fault, vs, written.value);
        assert Evaluated(c, d, es) == vs + [Evaluation(written.value, before.leakThreshold)];
      }
    }
  }

  /** A fault is logged exactly when the fault state is entered, a leak when the leak state is, and
      then a shutdown is started if that is configured. */
  lemma LogsAreEntries(c: Limits, d: Detector, v: Double)
    ensures var d' := Evaluate(c, d, v);
      && d'.faultLogs == d.faultLogs + (if d'.state == Fault && d.state != Fault then 1 else 0)
      && d'.criticalLogs == d.criticalLogs + (if d'.state == Leakage && d.state != Leakage then 1 else 0)
      && d'.shutdownsStarted ==
         d.shutdownsStarted + (if d'.state == Leakage && d.state != Leakage && c.shutdownOnLeak then 1 else 0)
      && d'.value == d.value && d'.sensorOverride == d.sensorOverride && d'.leakThreshold == d.leakThreshold
  {
  }

  /** NaN is evaluated every time, also when the value already is NaN: a healthy sensor is at fault
      after its first NaN. */
  lemma NaNIsEvaluated(c: Limits, d: Detector)
    requires d.state == Normal && !d.sensorOverride
    ensures Poll(c, d, NaN).state == Fault && Poll(c, d, NaN).value.NaN?
  {
  }

  /** A reading that differs is remembered, unless a client has written the value: that value holds
      for good, and is what is evaluated. */
  lemma {:induction false} ClientValueHolds(c: Limits, d: Detector, v: Double, readings: seq<Double>)
    ensures var d' := PollAll(c, SetValue(c, d, v, false), readings);
      d'.value == v && d'.sensorOverride
    ensures !d.sensorOverride ==> forall r :: Poll(c, d, r).value == r || (Poll(c, d, r) == d && d.value == r)
    decreases readings
  {
    PollsKeepOverride(c, SetValue(c, d, v, false), readings);
  }

  lemma {:induction false} PollsKeepOverride(c: Limits, d: Detector, readings: seq<Double>)
    requires d.sensorOverride
    ensures PollAll(c, d, readings).value == d.value && PollAll(c, d, readings).sensorOverride
    decreases readings
  {
    if readings != [] { PollsKeepOverride(c, Poll(c, d, readings[0]), readings[1..]); }
  }

  /** The leak state is never left. */
  lemma {:induction false} LeakIsLatched(c: Limits, d: Detector, es: seq<Event>)
    requires d.state == Leakage
    ensures Run(c, d, es).state == Leakage && Run(c, d, es).criticalLogs == d.criticalLogs
  {
    if es != [] { LeakIsLatched(c, d, es[..|es| - 1]); }
  }

  // ----- Three consecutive readings are not enough -----

  /** How many readings differ from the one before them. */
  function Changes(was: Double, readings: seq<Double>): nat
    decreases readings
  {
    if readings == [] then 0
    else (if Differs(was, readings[0]) then 1 else 0) + Changes(readings[0], readings[1..])
  }

  function PollAll(c: Limits, d: Detector, readings: seq<Double>): Detector
    decreases readings
  {
    if readings == [] then d else PollAll(c, Poll(c, d, readings[0]), readings[1..])
  }

  /** A reading equal to the one before is not evaluated at all. Readings that all show a leak,
      however many, therefore lead to LEAKAGE exactly when enough of them differ from their
      predecessor; the number of consecutive readings does not matter. */
  lemma {:induction false} ConsecutiveLeakReadings(c: Limits, d: Detector, readings: seq<Double>)
    requires d.state == Normal && !d.sensorOverride && d.leakDetectedCount < LEAK_DETECTED_COUNT_THRES
    requires forall r :: r in readings ==> !OutOfRange(c, r) && r.Less(d.leakThreshold)
    ensures PollAll(c, d, readings).state == Leakage <==>
      d.leakDetectedCount + Changes(d.value, readings) >= LEAK_DETECTED_COUNT_THRES
    decreases readings
  {
    if readings != [] {
      var r, rest := readings[0], readings[1..];
      assert r in readings && forall q :: q in rest ==> q in readings;
      var d' := Poll(c, d, r);
      if d'.state == Leakage {
        PollAllLatched(c, d', rest);
      } else {
        ConsecutiveLeakReadings(c, d', rest);
      }
    }
  }

  lemma {:induction false} PollAllLatched(c: Limits, d: Detector, readings: seq<Double>)
    requires d.state == Leakage
    ensures PollAll(c, d, readings).state == Leakage
    decreases readings
  {
    if readings != [] { PollAllLatched(c, Poll(c, d, readings[0]), readings[1..]); }
  }

  lemma {:induction false} ConstantNeverChanges(v: Double, readings: seq<Double>)
    requires v.Num? && forall r :: r in readings ==> r == v
    ensures Changes(v, readings) == 0
  {
    if readings != [] {
      assert readings[0] in readings && forall r :: r in readings[1..] ==> r in readings;
      ConstantNeverChanges(v, readings[1..]);
    }
  }

  /** A detector that reads the same leaking value for ever never reports the leak. */
  lemma SteadyLeakIsMissed(c: Limits, threshold: Double, v: Double, n: nat)
    requires !OutOfRange(c, v) && v.Less(threshold)
    ensures PollAll(c, Detector(Normal, 0, NaN, false, threshold, 0, 0, 0), seq(n, _ => v)).state == Normal
  {
    var d := Detector(Normal, 0, NaN, false, threshold, 0, 0, 0);
    var readings := seq(n, _ => v);
    if n > 0 {
      var d' := Poll(c, d, v);
      var rest := readings[1..];
      ConsecutiveLeakReadings(c, d', rest);
      ConstantNeverChanges(v, rest);
      StaysHealthy(c, d', rest);
    }
  }

  lemma {:induction false} StaysHealthy(c: Limits, d: Detector, readings: seq<Double>)
    requires d.state != Fault && forall r :: r in readings ==> !OutOfRange(c, r)
    requires !d.sensorOverride
    ensures PollAll(c, d, readings).state != Fault
    decreases readings
  {
    if readings != [] {
      assert readings[0] in readings && forall r :: r in readings[1..] ==> r in readings;
      StaysHealthy(c, Poll(c, d, readings[0]), readings[1..]);
    }
  }
}
