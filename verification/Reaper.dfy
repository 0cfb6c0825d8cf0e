/** External sensors and their reaper: src/external/ExternalSensor.cpp and `updateReaper` and
    `createSensors` of src/external/ExternalSensorMain.cpp. */
module Reaper {
  import opened Basics
  import opened Thresholds
  import SensorValue

  /** An external sensor; times are in ticks of the steady clock. `base` is the part it inherits,
      with the state and the operations of SensorValue. */
  datatype Sensor = Sensor(
    writeLast: int, writeTimeout: int, writeAlive: bool, writePerishable: bool,
    setup: SensorValue.Setup, base: SensorValue.Sensor)

  /** What the configuration says about a sensor. */
  datatype Config = Config(
    timeout: int, perishable: bool, setup: SensorValue.Setup, thresholds: seq<Threshold>, registered: set<Key>)

  /** The sensors by name, the expiry of the shared timer's pending wait, and how many of its
      handlers have expired but not run yet. Re-arming cancels the pending wait only. */
  datatype Daemon = Daemon(sensors: map<string, Sensor>, armed: Option<int>, queued: nat)

  // ----- Specification -----

  predicate Perishing(s: Sensor) {
    s.writeAlive && s.writePerishable
  }

  function Deadline(s: Sensor): int {
    s.writeLast + s.writeTimeout
  }

  function Created(c: Config, now: int): Sensor {
    Sensor(now, c.timeout, false, c.perishable, c.setup, SensorValue.Initial(c.thresholds, c.registered))
  }

  /** `setSensorValue` by a client, and the hook's `markAvailable(true)` for a finite value. */
  function SetByClient(k: SensorValue.Setup, base: SensorValue.Sensor, v: Double, powerGood: bool): SensorValue.Sensor {
    var base' := SensorValue.ExternalSet(base, v);
    if v.Num? then SensorValue.Available(k, base', true, powerGood) else base'
  }

  function Written(s: Sensor, v: Double, now: int, powerGood: bool): Sensor {
    s.(base := SetByClient(s.setup, s.base, v, powerGood), writeLast := now, writeAlive := true)
  }

  function Invalidated(s: Sensor, powerGood: bool): Sensor {
    s.(writeAlive := false, base := SensorValue.Released(s.setup, s.base, powerGood))
  }

  function Reap(s: Sensor, now: int, powerGood: bool): Sensor {
    if Perishing(s) && !(now - s.writeLast < s.writeTimeout) then Invalidated(s, powerGood) else s
  }

  /** `good` are the sensors whose reading state is good. */
  function Sweep(sensors: map<string, Sensor>, now: int, good: set<string>): map<string, Sensor> {
    map n | n in sensors :: Reap(sensors[n], now, n in good)
  }

  ghost predicate IsEarliest(sensors: map<string, Sensor>, d: int) {
    && (exists n :: n in sensors && Perishing(sensors[n]) && Deadline(sensors[n]) == d)
    && (forall n :: n in sensors && Perishing(sensors[n]) ==> d <= Deadline(sensors[n]))
  }

  ghost predicate AnyPerishing(sensors: map<string, Sensor>) {
    exists n :: n in sensors && Perishing(sensors[n])
  }

  lemma {:induction false} EarliestExists(sensors: map<string, Sensor>, names: set<string>, n: string) returns (d: int)
    requires n in names && n in sensors && Perishing(sensors[n])
    ensures exists m :: m in names && m in sensors && Perishing(sensors[m]) && Deadline(sensors[m]) == d
    ensures forall m :: m in names && m in sensors && Perishing(sensors[m]) ==> d <= Deadline(sensors[m])
    decreases names
  {
    d := Deadline(sensors[n]);
    if m :| m in names && m in sensors && Perishing(sensors[m]) && Deadline(sensors[m]) < d {
      d := EarliestExists(sensors, names - {n}, m);
    }
  }

  ghost function Earliest(sensors: map<string, Sensor>): (d: int)
    requires AnyPerishing(sensors)
    ensures IsEarliest(sensors, d)
  {
    assert exists d :: IsEarliest(sensors, d) by {
      var n :| n in sensors && Perishing(sensors[n]);
      var d := EarliestExists(sensors, sensors.Keys, n);
      assert IsEarliest(sensors, d);
    }
    var d :| IsEarliest(sensors, d);
    d
  }

  /** `updateReaper`: reap what is stale, then re-arm for the earliest deadline if there is one. */
  ghost function UpdateReaper(d: Daemon, now: int, good: set<string>): Daemon {
    var swept := Sweep(d.sensors, now, good);
    d.(sensors := swept, armed := if AnyPerishing(swept) then Some(Earliest(swept)) else d.armed)
  }

  ghost function ExternalWrite(d: Daemon, name: string, v: Double, now: int, good: set<string>): Daemon
    requires name in d.sensors
  {
    UpdateReaper(WithWritten(d, name, v, now, good), now, good)
  }

  function WithWritten(d: Daemon, name: string, v: Double, now: int, good: set<string>): Daemon
    requires name in d.sensors
  {
    d.(sensors := d.sensors[name := Written(d.sensors[name], v, now, name in good)])
  }

  // ----- The source's own form -----

  class ExternalSensor {
    var writeLast: int
    const writeTimeout: int
    var writeAlive: bool
    const writePerishable: bool
    const setup: SensorValue.Setup

    /** The fields inherited from Sensor. */
    var base: SensorValue.Sensor

    ghost function View(): Sensor reads this {
      Sensor(writeLast, writeTimeout, writeAlive, writePerishable, setup, base)
    }

    constructor (config: Config, now: int)
      ensures View() == Created(config, now)
    {
      writeLast, writeTimeout, writeAlive, writePerishable := now, config.timeout, false, config.perishable;
      setup, base := config.setup, SensorValue.Initial(config.thresholds, config.registered);
    }

    predicate IsAliveAndPerishable()
      reads this
      ensures IsAliveAndPerishable() <==> Perishing(View())
    {
      writeAlive && writePerishable
    }

    predicate IsAliveAndFresh(now: int)
      reads this
      ensures IsAliveAndFresh(now) <==> Perishing(View()) && now < Deadline(View())
    {
      IsAliveAndPerishable() && now - writeLast < writeTimeout
    }

    function AgeRemaining(now: int): (r: int)
      reads this
      ensures now + r == Deadline(View())
    {
      writeTimeout - (now - writeLast)
    }

    method WriteBegin(now: int)
      modifies this`writeLast, this`writeAlive
      ensures View() == old(View()).(writeLast := now, writeAlive := true)
    {
      writeLast := now;
      writeAlive := true;
    }

    method WriteInvalidate(powerGood: bool)
      modifies this
      ensures View() == Invalidated(old(View()), powerGood)
    {
      writeAlive := false;
      base := base.(overridden := false);
      base := SensorValue.Update(setup, base, NaN, powerGood);
    }

    /** The hook of an external write, up to telling the owner. */
    method ExternalSetTrigger(v: Double, now: int, powerGood: bool)
      modifies this
      ensures View() == old(View()).(
        base := if v.Num? then SensorValue.Available(setup, old(base), true, powerGood) else old(base),
        writeLast := now, writeAlive := true)
    {
      if v.Num? {
        base := SensorValue.Available(setup, base, true, powerGood);
      }
      WriteBegin(now);
    }
  }

  class ExternalDaemon {
    var sensors: map<string, ExternalSensor?>
    var armed: Option<int>
    var queued: nat

    ghost function Objects(): set<ExternalSensor> reads this {
      set n | n in sensors && sensors[n] != null :: sensors[n]
    }

    /** No object is registered under two names. */
    ghost predicate Valid() reads this {
      forall a, b :: a in sensors && b in sensors && a != b && sensors[a] != null ==> sensors[a] != sensors[b]
    }

    ghost function State(): Daemon reads this, Objects() {
      Daemon(map n | n in sensors && sensors[n] != null :: sensors[n].View(), armed, queued)
    }

    constructor ()
      ensures Valid() && State() == Daemon(map[], None, 0)
    {
      sensors, armed, queued := map[], None, 0;
    }

    /** First pass: reap all stale sensors. */
    method ReapStale(now: int, good: set<string>)
      requires Valid()
      modifies Objects()
      ensures State() == old(State()).(sensors := Sweep(old(State()).sensors, now, good))
    {
      var todo := sensors.Keys;
      while todo != {}
        invariant todo <= sensors.Keys
        invariant forall n :: n in sensors && sensors[n] != null ==>
          sensors[n].View() ==
            if n in todo then old(sensors[n].View()) else Reap(old(sensors[n].View()), now, n in good)
        decreases |todo|
      {
        var name :| name in todo;
        todo := todo - {name};
        var sensor := sensors[name];
        if sensor == null {
          continue;
        }
        if !sensor.IsAliveAndPerishable() {
          continue;
        }
        if !sensor.IsAliveAndFresh(now) {
          sensor.WriteInvalidate(name in good);
        }
      }
    }

    /** Second pass: the interval to the next check. */
    method NextCheck(now: int) returns (needCheck: bool, nextCheck: int)
      requires Valid()
      ensures needCheck <==> AnyPerishing(State().sensors)
      ensures needCheck ==> IsEarliest(State().sensors, now + nextCheck)
    {
      needCheck, nextCheck := false, 0;
      var todo := sensors.Keys;
      ghost var view := State().sensors;
      while todo != {}
        invariant todo <= sensors.Keys
        invariant needCheck <==> exists n :: n in view && n !in todo && Perishing(view[n])
        invariant needCheck ==> exists n ::
          n in view && n !in todo && Perishing(view[n]) && Deadline(view[n]) == now + nextCheck
        invariant needCheck ==> forall n ::
          n in view && n !in todo && Perishing(view[n]) ==> now + nextCheck <= Deadline(view[n])
        decreases |todo|
      {
        var name :| name in todo;
        todo := todo - {name};
        var sensor := sensors[name];
        if sensor == null {
          continue;
        }
        if !sensor.IsAliveAndPerishable() {
          continue;
        }
        assert view[name] == sensor.View();
        var expiration := sensor.AgeRemaining(now);
        if needCheck {
          nextCheck := if expiration < nextCheck then expiration else nextCheck;
        } else {
          nextCheck := expiration;
          needCheck := true;
        }
      }
    }

    method Update(now: int, good: set<string>)
      requires Valid()
      modifies this`armed, Objects()
      ensures State() == UpdateReaper(old(State()), now, good)
    {
      ReapStale(now, good);
      var needCheck, nextCheck := NextCheck(now);
      if !needCheck {
        return;
      }
      armed := Some(now + nextCheck);
    }

    /** A D-Bus client sets the value: `setSensorValue`, then `externalSetTrigger`. */
    method ExternalSet(name: string, v: Double, now: int, good: set<string>)
      requires Valid() && name in sensors && sensors[name] != null
      modifies this`armed, Objects()
      ensures State() == ExternalWrite(old(State()), name, v, now, good)
    {
      var sensor := sensors[name];
      sensor.base := SensorValue.ExternalSet(sensor.base, v);
      sensor.ExternalSetTrigger(v, now, name in good);
      assert State() == WithWritten(old(State()), name, v, now, good);
      Update(now, good);
    }

    /** The wait expires: its handler is queued. */
    method Expire()
      requires armed.Some?
      modifies this`armed, this`queued
      ensures State() == old(State()).(armed := None, queued := old(queued) + 1)
    {
      armed := None;
      queued := queued + 1;
    }

    /** The wait ends with an error other than its cancellation: the handler only logs it. */
    method WaitFails()
      requires armed.Some?
      modifies this`armed
      ensures State() == old(State()).(armed := None)
    {
      armed := None;
    }

    method RunHandler(now: int, good: set<string>)
      requires Valid() && queued > 0
      modifies this`armed, this`queued, Objects()
      ensures State() == UpdateReaper(old(State()).(queued := old(queued) - 1), now, good)
    {
      queued := queued - 1;
      assert State() == old(State()).(queued := old(queued) - 1);
      Update(now, good);
    }

    /** `createSensors` replaces one entry: the old object goes away, the new one is not alive. */
    method Replace(name: string, config: Config, now: int)
      requires Valid()
      modifies this`sensors
      ensures Valid()
      ensures State() == old(State()).(sensors := old(State()).sensors[name := Created(config, now)])
    {
      var sensor := new ExternalSensor(config, now);
      sensors := sensors[name := sensor];
    }
  }
}
