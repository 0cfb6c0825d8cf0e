/** The reaper over every run of external writes, timer expiries, queued handlers and sensor
    replacement. */
module ReaperRuns {
  import opened Basics
  import opened Reaper
  import opened Thresholds
  import SensorValue
  import SchmittTrigger
  import SensorEffects

  datatype Event =
    | Write(name: string, v: Double, at: int, good: set<string>)
    | Expire(at: int)
    | Handle(at: int, good: set<string>)
    | WaitFails(at: int)
    | Replace(name: string, config: Config, at: int)
    | CreateFailed(name: string, at: int)

  datatype System = System(daemon: Daemon, clock: int)

  predicate Enabled(s: System, ev: Event) {
    && s.clock <= ev.at
    && match ev
       case Write(name, _, _, _) => name in s.daemon.sensors
       case Expire(at) => s.daemon.armed.Some? && s.daemon.armed.value <= at
       case Handle(_, _) => s.daemon.queued > 0
       case WaitFails(_) => s.daemon.armed.Some?
       case _ => true
  }

  ghost function Step(s: System, ev: Event): System {
    if !Enabled(s, ev) then s
    else
      var d := s.daemon;
      match ev
      case Write(name, v, at, good) => System(ExternalWrite(d, name, v, at, good), at)
      case Expire(at) => System(d.(armed := None, queued := d.queued + 1), at)
      case Handle(at, good) => System(UpdateReaper(d.(queued := d.queued - 1), at, good), at)
      case WaitFails(at) => System(d.(armed := None), at)
      case Replace(name, config, at) => System(d.(sensors := d.sensors[name := Created(config, at)]), at)
      case CreateFailed(name, at) => System(d.(sensors := d.sensors - {name}), at)
  }

  ghost function Run(clock: int, es: seq<Event>): System {
    if es == [] then System(Daemon(map[], None, 0), clock) else Step(Run(clock, es[..|es| - 1]), es[|es| - 1])
  }

  /** The steps that sweep. */
  predicate Sweeps(s: System, ev: Event) {
    Enabled(s, ev) && (ev.Write? || ev.Handle?)
  }

  /** While a live perishable sensor exists, a handler is queued or the timer is armed no later
      than the earliest deadline. */
  ghost predicate Watched(d: Daemon) {
    forall n :: n in d.sensors && Perishing(d.sensors[n]) ==>
      d.queued > 0 || (d.armed.Some? && d.armed.value <= Deadline(d.sensors[n]))
  }

  // ----- One sweep -----

  /** A sweep at `now` invalidates precisely the live perishable sensors whose age has reached
      the timeout, releases their override and forgets their value, leaves every other sensor as it
      is, and arms the timer for exactly the earliest remaining deadline. */
  lemma SweepIsExact(d: Daemon, now: int, good: set<string>)
    ensures var d' := UpdateReaper(d, now, good);
      && d'.sensors.Keys == d.sensors.Keys
      && (forall n :: n in d.sensors ==>
            (Perishing(d.sensors[n]) && now - d.sensors[n].writeLast >= d.sensors[n].writeTimeout
             <==> d.sensors[n].writeAlive && !d'.sensors[n].writeAlive))
      && (forall n :: n in d.sensors && d'.sensors[n].writeAlive == d.sensors[n].writeAlive ==>
            d'.sensors[n] == d.sensors[n])
      && (forall n :: n in d.sensors && d'.sensors[n].writeAlive != d.sensors[n].writeAlive ==>
            && d'.sensors[n].base == SensorValue.Released(d.sensors[n].setup, d.sensors[n].base, n in good)
            && d'.sensors[n].base.value == NaN && !d'.sensors[n].base.overridden)
      && (AnyPerishing(d'.sensors) ==>
            d'.armed.Some? && IsEarliest(d'.sensors, d'.armed.value) && now < d'.armed.value)
  {
    var swept := Sweep(d.sensors, now, good);
    assert forall n :: n in swept && Perishing(swept[n]) ==> now < Deadline(swept[n]);
    forall n | n in d.sensors
      ensures SensorValue.Released(d.sensors[n].setup, d.sensors[n].base, n in good).value == NaN
      ensures !SensorValue.Released(d.sensors[n].setup, d.sensors[n].base, n in good).overridden
    {
      SensorValue.ReleasedForgets(d.sensors[n].setup, d.sensors[n].base, n in good);
    }
  }

  lemma SweepWatches(d: Daemon, now: int, good: set<string>)
    ensures Watched(UpdateReaper(d, now, good))
  {
    SweepIsExact(d, now, good);
  }

  // ----- Whole runs -----

  /** The timer's wait has failed, and nothing has swept since. */
  ghost predicate TimerLost(clock: int, es: seq<Event>) {
    es != [] &&
    var s, ev := Run(clock, es[..|es| - 1]), es[|es| - 1];
    (Enabled(s, ev) && ev.WaitFails?) || (TimerLost(clock, es[..|es| - 1]) && !Sweeps(s, ev))
  }

  lemma StepWatches(s: System, ev: Event)
    requires Watched(s.daemon) && !(Enabled(s, ev) && ev.WaitFails?)
    ensures Watched(Step(s, ev).daemon)
  {
    if Enabled(s, ev) {
      match ev
      case Write(name, v, at, good) => SweepWatches(WithWritten(s.daemon, name, v, at, good), at, good);
      case Handle(at, good) => SweepWatches(s.daemon.(queued := s.daemon.queued - 1), at, good);
      case _ =>
    }
  }

  lemma SweepStepWatches(s: System, ev: Event)
    requires Sweeps(s, ev)
    ensures Watched(Step(s, ev).daemon)
  {
    match ev
    case Write(name, v, at, good) => SweepWatches(WithWritten(s.daemon, name, v, at, good), at, good);
    case Handle(at, good) => SweepWatches(s.daemon.(queued := s.daemon.queued - 1), at, good);
  }

  /** A lost timer stays unarmed. */
  lemma {:induction false} WatchedUnlessLost(clock: int, es: seq<Event>)
    ensures if TimerLost(clock, es) then Run(clock, es).daemon.armed.None? else Watched(Run(clock, es).daemon)
  {
    if es != [] {
      var s, ev := Run(clock, es[..|es| - 1]), es[|es| - 1];
      WatchedUnlessLost(clock, es[..|es| - 1]);
      if Sweeps(s, ev) {
        SweepStepWatches(s, ev);
      } else if !TimerLost(clock, es) {
        StepWatches(s, ev);
      }
    }
  }

  /** Over every run, every live perishable sensor is watched, except when the timer's wait has
      failed since the last sweep, nothing is queued and there is such a sensor. */
  lemma AlwaysWatched(clock: int, es: seq<Event>)
    ensures var d := Run(clock, es).daemon;
      Watched(d) <==> !(TimerLost(clock, es) && d.queued == 0 && AnyPerishing(d.sensors))
  {
    WatchedUnlessLost(clock, es);
  }

  /** Whenever the event loop has caught up with the timer (nothing queued, the armed time still
      ahead) and the timer is not lost, no live perishable sensor is past its deadline. */
  lemma NoneOutlivesItsDeadline(clock: int, es: seq<Event>, n: string)
    requires !TimerLost(clock, es)
    requires var s := Run(clock, es);
      && s.daemon.queued == 0 && (s.daemon.armed.Some? ==> s.clock < s.daemon.armed.value)
      && n in s.daemon.sensors && Perishing(s.daemon.sensors[n])
    ensures Run(clock, es).clock < Deadline(Run(clock, es).daemon.sensors[n])
  {
    AlwaysWatched(clock, es);
  }

  /** With the timer lost, any time can pass: another sensor is replaced, and the one that should
      have died is still alive. */
  lemma LostTimerKeepsDeadAlive(clock: int, es: seq<Event>, n: string, other: string, at: int)
    requires var s := Run(clock, es);
      && TimerLost(clock, es) && s.daemon.queued == 0 && s.clock <= at && n != other
      && n in s.daemon.sensors && Perishing(s.daemon.sensors[n])
    ensures var s' := Run(clock, es + [CreateFailed(other, at)]);
      && s'.clock == at && s'.daemon.queued == 0 && s'.daemon.armed.None?
      && n in s'.daemon.sensors && s'.daemon.sensors[n] == Run(clock, es).daemon.sensors[n]
  {
    WatchedUnlessLost(clock, es);
    assert (es + [CreateFailed(other, at)])[..|es|] == es;
  }

  /** No sweep of any run leaves a live perishable sensor past its deadline, and just after it
      the timer is armed for exactly the earliest deadline. */
  lemma SweepsCatchEverything(clock: int, es: seq<Event>, ev: Event)
    requires Sweeps(Run(clock, es), ev)
    ensures var s' := Step(Run(clock, es), ev);
      var d' := s'.daemon;
      && (forall n :: n in d'.sensors && Perishing(d'.sensors[n]) ==> ev.at < Deadline(d'.sensors[n]))
      && (AnyPerishing(d'.sensors) ==> d'.armed.Some? && IsEarliest(d'.sensors, d'.armed.value))
  {
    var d := Run(clock, es).daemon;
    match ev
    case Write(name, v, at, good) => SweepIsExact(WithWritten(d, name, v, at, good), at, good);
    case Handle(at, good) => SweepIsExact(d.(queued := d.queued - 1), at, good);
  }

  /** No sensor expires early: a step that leaves a sensor dead which was alive, or was just
      written, is a sweep at or after the last write plus the timeout. */
  lemma NoneExpiresEarly(clock: int, es: seq<Event>, ev: Event, n: string)
    requires var s := Run(clock, es);
      && Enabled(s, ev) && !ev.Replace? && !ev.CreateFailed? && n in s.daemon.sensors
      && (s.daemon.sensors[n].writeAlive || (ev.Write? && ev.name == n))
    ensures var s, s' := Run(clock, es), Step(Run(clock, es), ev);
      && n in s'.daemon.sensors
      && s'.daemon.sensors[n].writeLast == (if ev.Write? && ev.name == n then ev.at else s.daemon.sensors[n].writeLast)
      && (!s'.daemon.sensors[n].writeAlive <==>
            Sweeps(s, ev) && s'.daemon.sensors[n].writePerishable && Deadline(s'.daemon.sensors[n]) <= ev.at)
  {
  }

  // ----- What a write and a replacement leave -----

  /** The inherited part after a client's write of `v`: the value stands as it is and overrides,
      a finite one makes the sensor available and forgets its errors, and each alarm is what the
      value says. */
  lemma SetByClientEffect(k: SensorValue.Setup, base: SensorValue.Sensor, v: Double, powerGood: bool, t: Threshold)
    requires SchmittTrigger.KeysDistinct(base.thresholds) && t in base.thresholds && t.key in base.engine.alarms
    ensures var base' := SetByClient(k, base, v, powerGood);
      && base'.value == v && base'.published == v && base'.overridden && base'.functional == base.functional
      && (base.available.Some? ==>
            (if v.Num? then base'.available == Some(true) && base'.errCount == 0
             else base'.available == base.available && base'.errCount == base.errCount))
      && t.key in base'.engine.alarms
      && SensorEffects.Checks(t, v, base.engine.alarms[t.key], base'.engine.alarms[t.key])
  {
    SensorEffects.ExternalSetEffect(base, v, t);
    if v.Num? && base.available.Some? {
      SensorEffects.MarkedAvailableEffect(k, SensorValue.ExternalSet(base, v), powerGood);
    }
  }

  /** After a client's write to a sensor that cannot expire at once, it is alive with the write time
      and the value of the write, whatever the sweep does to the others. */
  lemma WriteEffect(clock: int, es: seq<Event>, name: string, v: Double, at: int, good: set<string>)
    requires Enabled(Run(clock, es), Write(name, v, at, good))
    requires var s := Run(clock, es).daemon.sensors[name]; s.writePerishable ==> s.writeTimeout > 0
    ensures var s, s' := Run(clock, es).daemon.sensors[name],
                         Step(Run(clock, es), Write(name, v, at, good)).daemon.sensors;
      && name in s' && s'[name].writeAlive && s'[name].writeLast == at
      && s'[name].base == SetByClient(s.setup, s.base, v, name in good)
      && s'[name].writeTimeout == s.writeTimeout && s'[name].writePerishable == s.writePerishable
  {
  }

  /** A replaced sensor is new: not alive, without a value, not overridden; nothing else changes. */
  lemma ReplaceEffect(clock: int, es: seq<Event>, name: string, config: Config, at: int)
    requires Run(clock, es).clock <= at
    ensures var d, d' := Run(clock, es).daemon, Step(Run(clock, es), Replace(name, config, at)).daemon;
      && d'.armed == d.armed && d'.queued == d.queued && d'.sensors.Keys == d.sensors.Keys + {name}
      && (forall n :: n in d.sensors && n != name ==> d'.sensors[n] == d.sensors[n])
      && var s := d'.sensors[name];
         && !s.writeAlive && s.writeTimeout == config.timeout && s.writePerishable == config.perishable
         && s.base.value.NaN? && s.base.published.NaN? && !s.base.overridden && s.base.errCount == 0
         && s.base.thresholds == config.thresholds && s.base.engine.waits == [] && s.base.engine.slots == []
         && (forall key :: key in s.base.engine.alarms <==> key in config.registered)
         && (forall key :: key in s.base.engine.alarms ==> !s.base.engine.alarms[key])
  {
  }
}
