/** The value, availability and functional state of `Sensor` in src/sensor.hpp, with its
    re-entrant property setters. */
module SensorValue {
  import opened Basics
  import opened Thresholds

  const ERROR_THRESHOLD := 5

  /** `value` is the remembered reading, `published` the D-Bus property Value; `available` and
      `functional` are the D-Bus properties, None where the interface does not exist. */
  datatype Sensor = Sensor(
    value: Double, published: Double, overridden: bool, errCount: nat,
    available: Option<bool>, functional: Option<bool>, thresholds: seq<Threshold>, engine: Engine)

  /** What does not change after construction: the publish hysteresis, and whether somebody wants
      to know about external writes. */
  datatype Setup = Setup(hysteresisPublish: real, hasExternalSetHook: bool)

  /** A new object: nothing is known, every registered alarm is down. */
  function Initial(thresholds: seq<Threshold>, registered: set<Key>): Sensor {
    Sensor(NaN, NaN, false, 0, Some(true), Some(true), thresholds,
           Engine(map k | k in registered :: false, [], [], []))
  }

  // ----- Specification: each operation in one pass, without re-entry -----

  predicate RequiresUpdate(k: Setup, l: Double, r: Double) {
    if l.NaN? || r.NaN? then l.NaN? != r.NaN? else Abs(l.val - r.val) > k.hysteresisPublish
  }

  /** `updateValueProperty`, not overridden. */
  function Publish(k: Setup, s: Sensor, v: Double): Sensor {
    if RequiresUpdate(k, s.value, v) then s.(value := v, published := v) else s
  }

  function Checked(s: Sensor): Sensor {
    s.(engine := ApplyAllNow(s.engine, Changes(s.thresholds, s.value)))
  }

  function Set(property: Option<bool>, b: bool): Option<bool> {
    if property.Some? then Some(b) else None
  }

  function UpdateGood(k: Setup, s: Sensor, v: Double): Sensor {
    var s' := Checked(Publish(k, s, v));
    if v.NaN? then s'
    else s'.(functional := Set(s.functional, true), available := Set(s.available, true), errCount := 0)
  }

  function UpdateBad(k: Setup, s: Sensor): Sensor {
    var cleared := s.(engine := ApplyAllNow(s.engine, Clearing(s.thresholds, s.value)),
                      available := Set(s.available, false),
                      errCount := if s.available.Some? then 0 else s.errCount);
    Publish(k, cleared, NaN)
  }

  function Update(k: Setup, s: Sensor, v: Double, powerGood: bool): Sensor {
    if s.overridden then s else if powerGood then UpdateGood(k, s, v) else UpdateBad(k, s)
  }

  function SetAvailable(k: Setup, s: Sensor, b: bool, powerGood: bool): Sensor {
    if s.available == Set(s.available, b) then s
    else if b then s.(available := Some(true))
    else Update(k, s.(available := Some(false)), NaN, powerGood)
  }

  function Available(k: Setup, s: Sensor, b: bool, powerGood: bool): Sensor {
    if s.available.None? then s else SetAvailable(k, s, b, powerGood).(errCount := 0)
  }

  function Functional(k: Setup, s: Sensor, b: bool, powerGood: bool): Sensor {
    var s' := s.(functional := Set(s.functional, b));
    if b then s'.(errCount := 0) else Update(k, s', NaN, powerGood)
  }

  function CountError(k: Setup, s: Sensor, powerGood: bool): Sensor {
    if !powerGood then Available(k, s, false, powerGood)
    else if s.errCount >= ERROR_THRESHOLD then s
    else
      var s' := s.(errCount := s.errCount + 1);
      if s'.errCount == ERROR_THRESHOLD then Functional(k, s', false, powerGood) else s'
  }

  /** `setSensorValue` called by a D-Bus client that is allowed to. */
  function ExternalSet(s: Sensor, v: Double): Sensor {
    Checked(s.(published := v, overridden := true, value := v))
  }

  /** A threshold property was written: the remembered value is forgotten, not the published one. */
  function ThresholdWritten(s: Sensor, i: nat, v: Double): Sensor
    requires i < |s.thresholds|
  {
    s.(thresholds := s.thresholds[i := s.thresholds[i].(value := v)], value := NaN)
  }

  /** `ExternalSensor::writeInvalidate` takes control back from the external source. */
  function Released(k: Setup, s: Sensor, powerGood: bool): Sensor {
    Update(k, s.(overridden := false), NaN, powerGood)
  }

  lemma ReleasedForgets(k: Setup, s: Sensor, powerGood: bool)
    ensures Released(k, s, powerGood).value == NaN && !Released(k, s, powerGood).overridden
  {
  }

  // ----- Clearing twice is clearing once -----

  lemma {:induction false} ClearedStays(e: Engine, ts: seq<Threshold>, v: Double, w: Double)
    ensures ApplyAllNow(ApplyAllNow(e, Clearing(ts, v)), Clearing(ts, w)) == ApplyAllNow(e, Clearing(ts, v))
  {
    var e' := ApplyAllNow(e, Clearing(ts, v));
    forall t | t in ts && t.key in e'.alarms ensures !e'.alarms[t.key] {
      ClearedIsFalse(e, ts, v, t);
    }
    AlreadyClear(e', ts, w);
  }

  lemma ClearingStep(ts: seq<Threshold>, v: Double)
    requires ts != []
    ensures Clearing(ts, v)[..|ts| - 1] == Clearing(ts[..|ts| - 1], v)
  {
  }

  lemma {:induction false} ClearedIsFalse(e: Engine, ts: seq<Threshold>, v: Double, t: Threshold)
    requires t in ts && t.key in ApplyAllNow(e, Clearing(ts, v)).alarms
    ensures !ApplyAllNow(e, Clearing(ts, v)).alarms[t.key]
  {
    ClearingStep(ts, v);
    if ts[|ts| - 1].key != t.key {
      ClearedIsFalse(e, ts[..|ts| - 1], v, t);
    }
  }

  lemma {:induction false} AlreadyClear(e: Engine, ts: seq<Threshold>, v: Double)
    requires forall t :: t in ts && t.key in e.alarms ==> !e.alarms[t.key]
    ensures ApplyAllNow(e, Clearing(ts, v)) == e
  {
    if ts != [] {
      ClearingStep(ts, v);
      AlreadyClear(e, ts[..|ts| - 1], v);
      assert ts[|ts| - 1] in ts;
    }
  }

  /** The rest of an update in bad power adds nothing when marking the sensor unavailable has
      already run the same update from within. */
  lemma BadUpdateReentered(k: Setup, s: Sensor)
    requires !s.overridden
    ensures var s' := Available(k, s, false, false);
      Publish(k, s'.(engine := ApplyAllNow(s'.engine, Clearing(s'.thresholds, s'.value))), NaN) == UpdateBad(k, s)
  {
    var s' := Available(k, s, false, false);
    match s.available
    case None =>
    case Some(b) =>
      assert b || s.available == Some(false);
      if b { ClearedStays(s.engine, s.thresholds, s.value, s'.value); }
  }

  // ----- The source's own form -----

  /** The four methods below call each other. They terminate because the stored Available bit is
      cleared before `updateValue` is entered again. */
  class SensorObject {
    const setup: Setup
    var value: Double
    var published: Double
    var overriddenState: bool
    var internalSet: bool
    var errCount: nat
    var available: Option<bool>
    var functional: Option<bool>
    var thresholds: seq<Threshold>
    var engine: Engine

    /** How often the external set hook was called. */
    var hookCalls: nat

    ghost function State(): Sensor reads this {
      Sensor(value, published, overriddenState, errCount, available, functional, thresholds, engine)
    }

    constructor (setup: Setup, thresholds: seq<Threshold>, registered: set<Key>)
      ensures this.setup == setup && !internalSet && hookCalls == 0
      ensures State() == Initial(thresholds, registered)
    {
      this.setup := setup;
      value, published, overriddenState, internalSet, errCount := NaN, NaN, false, false, 0;
      available, functional, hookCalls := Some(true), Some(true), 0;
      this.thresholds := thresholds;
      engine := Engine(map k | k in registered :: false, [], [], []);
    }

    method CheckThresholds()
      modifies this`engine
      ensures State() == Checked(old(State()))
    {
      engine := ApplyAllNow(engine, Changes(thresholds, value));
    }

    /** The setter of the D-Bus property Value. `allowed` is false where the source throws
        `SetSensorError`: nothing changes then. The hook runs after an external write, and only
        then. */
    method SetSensorValue(newValue: Double, allowed: bool)
      modifies this`value, this`published, this`overriddenState, this`engine, this`hookCalls
      ensures hookCalls == old(hookCalls) +
        if !old(internalSet) && allowed && setup.hasExternalSetHook then 1 else 0
      ensures State() ==
        if old(internalSet) then old(State()).(published := if old(overriddenState) then old(published) else newValue)
        else if !allowed then old(State())
        else ExternalSet(old(State()), newValue)
    {
      if !internalSet {
        if !allowed {
          return;
        }
        published := newValue;
        overriddenState := true;
        value := newValue;
        CheckThresholds();
        if setup.hasExternalSetHook {
          hookCalls := hookCalls + 1;
        }
      } else if !overriddenState {
        published := newValue;
      }
    }

    /** The setter of a threshold property. */
    method ThresholdSetter(i: nat, request: Double)
      requires i < |thresholds|
      modifies this`thresholds, this`value
      ensures State() == ThresholdWritten(old(State()), i, request)
    {
      thresholds := thresholds[i := thresholds[i].(value := request)];
      value := NaN;
    }

    method UpdateValueProperty(newValue: Double)
      requires !overriddenState && !internalSet
      modifies this
      ensures State() == Publish(setup, old(State()), newValue) && !internalSet
    {
      internalSet := true;
      if RequiresUpdate(setup, value, newValue) {
        value := newValue;
        SetSensorValue(newValue, false);
      }
      internalSet := false;
    }

    /** The setter of the D-Bus property Available. */
    method AvailableSetter(propIn: bool, powerGood: bool)
      requires available.Some? && !internalSet
      modifies this
      ensures State() == SetAvailable(setup, old(State()), propIn, powerGood) && !internalSet
      decreases if available == Some(true) then 1 else 0, 0
    {
      if propIn == available.value {
        return;
      }
      assert !propIn ==> available == Some(available.value) == Some(true);
      available := Some(propIn);
      if !propIn {
        UpdateValue(NaN, powerGood);
      }
    }

    method MarkAvailable(isAvailable: bool, powerGood: bool)
      requires !internalSet
      modifies this
      ensures State() == Available(setup, old(State()), isAvailable, powerGood) && !internalSet
      decreases if available == Some(true) then 1 else 0, 1
    {
      if available.Some? {
        AvailableSetter(isAvailable, powerGood);
        errCount := 0;
      }
    }

    method MarkFunctional(isFunctional: bool, powerGood: bool)
      requires !internalSet
      modifies this
      ensures State() == Functional(setup, old(State()), isFunctional, powerGood) && !internalSet
      decreases if available == Some(true) then 1 else 0, if isFunctional then 1 else 3
    {
      if functional.Some? {
        functional := Some(isFunctional);
      }
      if isFunctional {
        errCount := 0;
      } else {
        UpdateValue(NaN, powerGood);
      }
    }

    /** `updateValue`: in a bad power state it re-enters itself through the Available setter. */
    method UpdateValue(newValue: Double, powerGood: bool)
      requires !internalSet
      modifies this
      ensures State() == Update(setup, old(State()), newValue, powerGood) && !internalSet
      decreases if available == Some(true) then 1 else 0, 2
    {
      if overriddenState {
        return;
      }
      if !powerGood {
        BadUpdateReentered(setup, State());
        MarkAvailable(false, powerGood);
        engine := ApplyAllNow(engine, Clearing(thresholds, value));
        UpdateValueProperty(NaN);
        return;
      }
      UpdateValueProperty(newValue);
      CheckThresholds();
      if newValue.Num? {
        MarkFunctional(true, powerGood);
        MarkAvailable(true, powerGood);
      }
    }

    method IncrementError(powerGood: bool)
      requires !internalSet
      modifies this
      ensures State() == CountError(setup, old(State()), powerGood) && !internalSet
    {
      if !powerGood {
        MarkAvailable(false, powerGood);
        return;
      }
      if errCount >= ERROR_THRESHOLD {
        return;
      }
      errCount := errCount + 1;
      if errCount == ERROR_THRESHOLD {
        MarkFunctional(false, powerGood);
      }
    }
  }

  // ----- Whole runs -----

  datatype Event =
    | Updated(v: Double, powerGood: bool)
    | MarkedAvailable(b: bool, powerGood: bool)
    | MarkedFunctional(b: bool, powerGood: bool)
    | ClientSetAvailable(b: bool, powerGood: bool)
    | ReadError(powerGood: bool)
    | ClientSetValue(v: Double)
    | ClientSetThreshold(i: nat, v: Double)
    | OverrideReleased(powerGood: bool)

  function Step(k: Setup, s: Sensor, ev: Event): Sensor {
    match ev
    case Updated(v, powerGood) => Update(k, s, v, powerGood)
    case MarkedAvailable(b, powerGood) => Available(k, s, b, powerGood)
    case MarkedFunctional(b, powerGood) => Functional(k, s, b, powerGood)
    case ClientSetAvailable(b, powerGood) => SetAvailable(k, s, b, powerGood)
    case ReadError(powerGood) => CountError(k, s, powerGood)
    case ClientSetValue(v) => ExternalSet(s, v)
    case ClientSetThreshold(i, v) => if i < |s.thresholds| then ThresholdWritten(s, i, v) else s
    case OverrideReleased(powerGood) => Released(k, s, powerGood)
  }

  function Run(k: Setup, s: Sensor, es: seq<Event>): Sensor {
    if es == [] then s else Step(k, Run(k, s, es[..|es| - 1]), es[|es| - 1])
  }

  /** The remembered value is the published one, or has been forgotten. */
  predicate Coherent(s: Sensor) {
    s.value == s.published || s.value.NaN?
  }

  /** The published value stands for the reading `v`. */
  predicate Represents(k: Setup, published: Double, v: Double) {
    if published.NaN? || v.NaN? then published.NaN? && v.NaN? else Abs(published.val - v.val) <= k.hysteresisPublish
  }

  predicate Sound(s: Sensor) {
    Coherent(s) && s.errCount <= ERROR_THRESHOLD
  }

  lemma UpdateKeepsSound(k: Setup, s: Sensor, v: Double, powerGood: bool)
    requires Sound(s)
    ensures Sound(Update(k, s, v, powerGood))
  {
  }

  lemma StepKeepsSound(k: Setup, s: Sensor, ev: Event)
    requires Sound(s)
    ensures Sound(Step(k, s, ev))
  {
    match ev
    case Updated(v, powerGood) => UpdateKeepsSound(k, s, v, powerGood);
    case MarkedAvailable(b, powerGood) => UpdateKeepsSound(k, s.(available := Some(false)), NaN, powerGood);
    case MarkedFunctional(b, powerGood) => UpdateKeepsSound(k, s.(functional := Set(s.functional, b)), NaN, powerGood);
    case ClientSetAvailable(b, powerGood) => UpdateKeepsSound(k, s.(available := Some(false)), NaN, powerGood);
    case ReadError(powerGood) =>
      if !powerGood {
        UpdateKeepsSound(k, s.(available := Some(false)), NaN, powerGood);
      } else if s.errCount < ERROR_THRESHOLD {
        UpdateKeepsSound(k, s.(errCount := s.errCount + 1, functional := Set(s.functional, false)), NaN, powerGood);
      }
    case ClientSetValue(v) =>
    case ClientSetThreshold(_, _) =>
    case OverrideReleased(powerGood) => UpdateKeepsSound(k, s.(overridden := false), NaN, powerGood);
  }

  lemma {:induction false} RunsStaySound(k: Setup, s: Sensor, es: seq<Event>)
    requires Sound(s)
    ensures Sound(Run(k, s, es))
  {
    if es != [] {
      RunsStaySound(k, s, es[..|es| - 1]);
      StepKeepsSound(k, Run(k, s, es[..|es| - 1]), es[|es| - 1]);
    }
  }

  // ----- When the published value stands for the reading -----

  /** A threshold was written while a number was published, and nothing was stored since: the
      remembered value is gone, the published one is not. */
  predicate Stale(s: Sensor) {
    s.value.NaN? && s.published.Num?
  }

  predicate WritesThreshold(s: Sensor, ev: Event) {
    ev.ClientSetThreshold? && ev.i < |s.thresholds|
  }

  /** The steps that store a reading or a client's value, once nothing is remembered. */
  predicate Stores(s: Sensor, ev: Event) {
    ev.ClientSetValue? || (ev.Updated? && ev.powerGood && ev.v.Num? && !s.overridden)
  }

  lemma UpdateEndsStale(k: Setup, s: Sensor, v: Double, powerGood: bool)
    requires Coherent(s)
    ensures Stale(Update(k, s, v, powerGood)) <==> Stale(s) && !(powerGood && v.Num? && !s.overridden)
  {
  }

  lemma StaleAfterMarking(k: Setup, s: Sensor, ev: Event)
    requires Coherent(s) && (ev.MarkedAvailable? || ev.MarkedFunctional? || ev.ClientSetAvailable?)
    ensures Stale(Step(k, s, ev)) <==> Stale(s)
  {
    match ev
    case MarkedAvailable(_, powerGood) => UpdateEndsStale(k, s.(available := Some(false)), NaN, powerGood);
    case MarkedFunctional(b, powerGood) => UpdateEndsStale(k, s.(functional := Set(s.functional, b)), NaN, powerGood);
    case ClientSetAvailable(_, powerGood) => UpdateEndsStale(k, s.(available := Some(false)), NaN, powerGood);
  }

  lemma StaleAfterError(k: Setup, s: Sensor, powerGood: bool)
    requires Coherent(s)
    ensures Stale(CountError(k, s, powerGood)) <==> Stale(s)
  {
    if !powerGood {
      StaleAfterMarking(k, s, MarkedAvailable(false, powerGood));
    } else {
      StaleAfterMarking(k, s.(errCount := s.errCount + 1), MarkedFunctional(false, powerGood));
    }
  }

  lemma StaleStep(k: Setup, s: Sensor, ev: Event)
    requires Coherent(s)
    ensures Stale(Step(k, s, ev)) <==>
      (WritesThreshold(s, ev) && s.published.Num?) || (Stale(s) && !Stores(s, ev))
  {
    match ev
    case Updated(v, powerGood) => UpdateEndsStale(k, s, v, powerGood);
    case ReadError(powerGood) => StaleAfterError(k, s, powerGood);
    case OverrideReleased(powerGood) => UpdateEndsStale(k, s.(overridden := false), NaN, powerGood);
    case ClientSetValue(_) =>
    case ClientSetThreshold(_, _) =>
    case _ => StaleAfterMarking(k, s, ev);
  }

  /** Step `m` wrote a threshold while a number was published, and no later step stored a value. */
  ghost predicate ThresholdWrittenLast(k: Setup, s0: Sensor, es: seq<Event>, m: nat) {
    && m < |es| && WritesThreshold(Run(k, s0, es[..m]), es[m]) && Run(k, s0, es[..m]).published.Num?
    && forall n :: m < n < |es| ==> !Stores(Run(k, s0, es[..n]), es[n])
  }

  lemma WrittenLastStep(k: Setup, s0: Sensor, init: seq<Event>, ev: Event, m: nat)
    ensures ThresholdWrittenLast(k, s0, init + [ev], m) <==>
      if m == |init| then WritesThreshold(Run(k, s0, init), ev) && Run(k, s0, init).published.Num?
      else ThresholdWrittenLast(k, s0, init, m) && !Stores(Run(k, s0, init), ev)
  {
    var es := init + [ev];
    assert es[..|init|] == init;
    if m < |init| {
      assert forall n :: 0 <= n < |init| ==> es[..n] == init[..n] && es[n] == init[n];
      if ThresholdWrittenLast(k, s0, es, m) { assert es[|init|] == ev; }
    }
  }

  ghost predicate SomeWrittenLast(k: Setup, s0: Sensor, es: seq<Event>) {
    exists m: nat :: ThresholdWrittenLast(k, s0, es, m)
  }

  lemma SomeWrittenLastStep(k: Setup, s0: Sensor, init: seq<Event>, ev: Event)
    ensures SomeWrittenLast(k, s0, init + [ev]) <==>
      || (WritesThreshold(Run(k, s0, init), ev) && Run(k, s0, init).published.Num?)
      || (SomeWrittenLast(k, s0, init) && !Stores(Run(k, s0, init), ev))
  {
    var es := init + [ev];
    WrittenLastStep(k, s0, init, ev, |init|);
    if SomeWrittenLast(k, s0, init) {
      var m: nat :| ThresholdWrittenLast(k, s0, init, m);
      WrittenLastStep(k, s0, init, ev, m);
    }
    if SomeWrittenLast(k, s0, es) {
      var m: nat :| ThresholdWrittenLast(k, s0, es, m);
      WrittenLastStep(k, s0, init, ev, m);
    }
  }

  /** The histories that leave the remembered and the published value apart. */
  lemma {:induction false} StaleIffThresholdWrittenLast(k: Setup, s0: Sensor, es: seq<Event>)
    requires Sound(s0) && !Stale(s0)
    ensures Stale(Run(k, s0, es)) <==> SomeWrittenLast(k, s0, es)
  {
    if es != [] {
      var init, ev := es[..|es| - 1], es[|es| - 1];
      assert es == init + [ev];
      StaleIffThresholdWrittenLast(k, s0, init);
      RunsStaySound(k, s0, init);
      StaleStep(k, Run(k, s0, init), ev);
      SomeWrittenLastStep(k, s0, init, ev);
    }
  }

  lemma UpdateRepresents(k: Setup, s: Sensor, v: Double)
    requires k.hysteresisPublish >= 0.0 && Coherent(s) && !s.overridden
    ensures Represents(k, Update(k, s, v, true).published, v) <==> !(Stale(s) && v.NaN?)
  {
  }

  /** However long the run before it, an update with power good and no override leaves the
      published value NaN exactly when the reading is, and otherwise within the publish
      hysteresis of it: error does not accumulate. The one exception is a NaN reading when a
      threshold was written while a number was published and no value was stored since: that number
      stays published. */
  lemma PublishedRepresentsReading(k: Setup, s0: Sensor, es: seq<Event>, v: Double)
    requires k.hysteresisPublish >= 0.0
    requires Sound(s0) && !Stale(s0) && !Run(k, s0, es).overridden
    ensures Represents(k, Update(k, Run(k, s0, es), v, true).published, v) <==>
      !(v.NaN? && SomeWrittenLast(k, s0, es))
  {
    RunsStaySound(k, s0, es);
    StaleIffThresholdWrittenLast(k, s0, es);
    UpdateRepresents(k, Run(k, s0, es), v);
  }

  /** The exception can be reached: publish 5, write a threshold, lose the reading. */
  lemma StaleNumberStaysPublished(k: Setup, s0: Sensor, limit: Double)
    requires k.hysteresisPublish >= 0.0 && s0.value == s0.published == NaN && !s0.overridden && s0.thresholds != []
    ensures var s := Run(k, s0, [Updated(Num(5.0), true), ClientSetThreshold(0, limit), Updated(NaN, true)]);
      s.published == Num(5.0) && s.value == NaN
  {
    var es := [Updated(Num(5.0), true), ClientSetThreshold(0, limit), Updated(NaN, true)];
    assert es[..2][..1] == es[..1] && es[..1][..0] == [];
    assert Run(k, s0, es[..1]) == Step(k, Run(k, s0, []), es[0]);
    assert Run(k, s0, es[..2]) == Step(k, Run(k, s0, es[..1]), es[1]);
  }

  /** In a bad power state an update makes the sensor unavailable, forgets the value and takes
      every alarm down, and doing it again changes nothing. */
  lemma UpdateInBadPower(k: Setup, s: Sensor, v: Double)
    requires !s.overridden
    ensures var s' := Update(k, s, v, false);
      && s'.value == NaN && s'.available == Set(s.available, false)
      && (forall t :: t in s.thresholds && t.key in s'.engine.alarms ==> !s'.engine.alarms[t.key])
      && Update(k, s', v, false) == s'
  {
    var s' := Update(k, s, v, false);
    forall t | t in s.thresholds && t.key in s'.engine.alarms ensures !s'.engine.alarms[t.key] {
      ClearedIsFalse(s.engine, s.thresholds, s.value, t);
    }
    AlreadyClear(s'.engine, s.thresholds, s'.value);
  }
}
