/** Whole runs of the delayed threshold engine: any interleaving of readings, timer handlers
    and power losses. */
module ThresholdRuns {
  import opened Basics
  import opened Thresholds
  import opened SchmittTrigger
  import opened TimerPool

  datatype Event =
    | Reading(v: Double, at: int)
    | Timer(wait: nat, at: int, ok: bool, powerGood: bool)
    | PowerLoss(v: Double)

  /** `latest` is the time of the latest reading, `peak` the largest number of waits so far. */
  datatype System = System(engine: Engine, clock: int, latest: int, peak: nat)

  /** The wait `i` is outstanding. */
  predicate Outstanding(e: Engine, i: nat) {
    i < |e.waits| && e.waits[i].slot < |e.slots|
  }

  /** The engine does not look at the clock: this takes readings at any times and handlers in any
      order. `updateValueOnly` (src/sensor.hpp) clears every alarm when the reading state is bad. */
  function Step(s: System, ts: seq<Threshold>, ev: Event): System {
    match ev
    case Reading(v, at) =>
      var e := ApplyAllDelayed(s.engine, Changes(ts, v), at);
      System(e, at, at, Max(s.peak, |e.waits|))
    case Timer(i, at, ok, powerGood) =>
      if Outstanding(s.engine, i) then s.(engine := Expire(s.engine, i, ok, powerGood), clock := at) else s
    case PowerLoss(v) =>
      s.(engine := ApplyAllNow(s.engine, Clearing(ts, v)))
  }

  /** What the clock and the event loop do: readings come at strictly advancing times, and the
      handler of a wait runs when its deadline is reached and no other deadline is earlier. */
  predicate Timely(s: System, ev: Event) {
    match ev
    case Reading(_, at) => s.clock <= at && s.latest < at
    case Timer(i, at, _, _) =>
      && Outstanding(s.engine, i) && s.clock <= at && s.engine.waits[i].deadline <= at
      && forall j :: 0 <= j < |s.engine.waits| ==> s.engine.waits[i].deadline <= s.engine.waits[j].deadline
    case PowerLoss(_) => true
  }

  function Start(registered: set<Key>, clock: int): System {
    System(Engine(map k | k in registered :: false, [], [], []), clock, clock - 1, 0)
  }

  function Run(s: System, ts: seq<Threshold>, es: seq<Event>): System {
    if es == [] then s else Step(Run(s, ts, es[..|es| - 1]), ts, es[|es| - 1])
  }

  predicate AllTimely(s: System, ts: seq<Threshold>, es: seq<Event>) {
    es == [] || (AllTimely(s, ts, es[..|es| - 1]) && Timely(Run(s, ts, es[..|es| - 1]), es[|es| - 1]))
  }

  function Readings(es: seq<Event>): seq<Double> {
    if es == [] then []
    else Readings(es[..|es| - 1]) + if es[|es| - 1].Reading? then [es[|es| - 1].v] else []
  }

  /** Power stays good and no timer reports an error. */
  predicate Clean(es: seq<Event>) {
    forall ev :: ev in es ==> ev.Reading? || (ev.Timer? && ev.ok && ev.powerGood)
  }

  // ----- Invariant -----

  /** Waits are held in starting order: deadlines never decrease, and strictly increase for
      one alarm. Only low alarms wait. */
  ghost predicate Ordered(waits: seq<Wait>) {
    && (forall w :: w in waits ==> w.threshold.key.direction == Low)
    && forall i, j :: 0 <= i < j < |waits| ==>
         && waits[i].deadline <= waits[j].deadline
         && (waits[i].threshold.key == waits[j].threshold.key ==> waits[i].deadline < waits[j].deadline)
  }

  /** The timer list is sound and has grown to the largest number of waits, and no further. */
  ghost predicate PoolFits(s: System) {
    PoolOk(s.engine) && |s.engine.slots| == s.peak
  }

  ghost predicate InOrder(s: System) {
    && Ordered(s.engine.waits)
    && (forall w :: w in s.engine.waits ==> w.deadline <= s.latest + WAIT_SECONDS)
  }

  /** The alarm value of `key` once the waits have all been handled in order. */
  function Eventual(waits: seq<Wait>, key: Key, alarm: bool): bool {
    if waits == [] then alarm
    else
      var w := waits[|waits| - 1];
      if w.threshold.key == key then w.asserting else Eventual(waits[..|waits| - 1], key, alarm)
  }

  function EventualAlarm(e: Engine, key: Key): bool
    requires key in e.alarms
  {
    Eventual(e.waits, key, e.alarms[key])
  }

  lemma {:induction false} EventualWithout(waits: seq<Wait>, key: Key, alarm: bool)
    requires forall w :: w in waits ==> w.threshold.key != key
    ensures Eventual(waits, key, alarm) == alarm
  {
    if waits != [] { EventualWithout(waits[..|waits| - 1], key, alarm); }
  }

  lemma {:induction false} EventualAllFalse(waits: seq<Wait>, key: Key)
    requires forall w :: w in waits && w.threshold.key == key ==> !w.asserting
    ensures !Eventual(waits, key, false)
  {
    if waits != [] { EventualAllFalse(waits[..|waits| - 1], key); }
  }

  /** Handling the first wait of an alarm does not change where the alarm ends up. */
  lemma {:induction false} EventualRemove(waits: seq<Wait>, i: nat, key: Key, alarm: bool)
    requires i < |waits|
    requires forall j :: 0 <= j < i ==> waits[j].threshold.key != waits[i].threshold.key
    ensures var alarm' := if waits[i].threshold.key == key then waits[i].asserting else alarm;
      Eventual(waits[..i] + waits[i + 1..], key, alarm') == Eventual(waits, key, alarm)
  {
    var n := |waits| - 1;
    var rest := waits[..i] + waits[i + 1..];
    if i == n {
      assert rest == waits[..n];
      if waits[i].threshold.key == key {
        EventualWithout(rest, key, waits[i].asserting);
      }
    } else {
      assert rest[|rest| - 1] == waits[n];
      assert rest[..|rest| - 1] == waits[..n][..i] + waits[..n][i + 1..];
      EventualRemove(waits[..n], i, key, alarm);
    }
  }

  // ----- One reading -----

  ghost predicate Handled(done: seq<Threshold>, key: Key) {
    exists t :: t in done && t.key == key
  }

  /** The waits in the middle of a reading at time `at`, with the thresholds `done` handled. */
  ghost predicate Mid(waits: seq<Wait>, done: seq<Threshold>, at: int) {
    && Ordered(waits)
    && forall w :: w in waits ==>
         w.deadline <= at + WAIT_SECONDS &&
         (w.deadline == at + WAIT_SECONDS ==> Handled(done, w.threshold.key))
  }

  lemma MidMore(waits: seq<Wait>, done: seq<Threshold>, t: Threshold, at: int)
    requires Mid(waits, done, at)
    ensures Mid(waits, done + [t], at)
  {
    forall w | w in waits && w.deadline == at + WAIT_SECONDS ensures Handled(done + [t], w.threshold.key) {
      var t' :| t' in done && t'.key == w.threshold.key;
      assert t' in done + [t];
    }
  }

  lemma MidAppend(waits: seq<Wait>, done: seq<Threshold>, w: Wait, at: int)
    requires Mid(waits, done, at) && !Handled(done, w.threshold.key)
    requires w.threshold.key.direction == Low && w.deadline == at + WAIT_SECONDS
    ensures Mid(waits + [w], done + [w.threshold], at)
  {
    MidMore(waits, done, w.threshold, at);
    assert w.threshold in done + [w.threshold];
    forall j | 0 <= j < |waits|
      ensures waits[j].deadline <= w.deadline
      ensures waits[j].threshold.key == w.threshold.key ==> waits[j].deadline < w.deadline
    {
      assert waits[j] in waits;
    }
  }

  /** A change moves where its own alarm ends up, and no other: an immediate de-assert can
      only overtake pending de-asserts. */
  lemma ApplyMovesEventual(e: Engine, c: Change, at: int, key: Key)
    requires PoolOk(e) && Ordered(e.waits) && key in e.alarms
    requires c.threshold.key.direction != DirectionError
    ensures var e' := ApplyDelayed(e, c, at);
      && e'.alarms.Keys == e.alarms.Keys
      && EventualAlarm(e', key) == if c.threshold.key == key then c.asserted else EventualAlarm(e, key)
  {
    if Delays(e, c) {
      var e' := StartTimer(e, c, at);
      assert e'.waits[..|e.waits|] == e.waits;
    } else if c.threshold.key == key {
      if key.direction == Low {
        HasActiveIsOutstanding(e, key, true);
        EventualAllFalse(e.waits, key);
      } else {
        EventualWithout(e.waits, key, c.asserted);
      }
    }
  }

  lemma ApplyKeepsPool(e: Engine, c: Change, at: int)
    requires PoolOk(e)
    ensures var e' := ApplyDelayed(e, c, at);
      && PoolOk(e') && |e'.waits| >= |e.waits|
      && |e'.slots| == Max(|e.slots|, |e'.waits|)
  {
    if Delays(e, c) {
      StartTimerKeepsPool(e, c, at);
    } else {
      UsedCountBounds(e.slots);
    }
  }

  lemma DelayedOneMore(e: Engine, ts: seq<Threshold>, v: Double, at: int)
    requires ts != []
    ensures
      var before := ApplyAllDelayed(e, Changes(ts[..|ts| - 1], v), at);
      ApplyAllDelayed(e, Changes(ts, v), at) ==
      match Verdict(ts[|ts| - 1], v)
      case None => before
      case Some(a) => ApplyDelayed(before, Change(ts[|ts| - 1], a, v), at)
  {
    var cs := Changes(ts[..|ts| - 1], v);
    match Verdict(ts[|ts| - 1], v)
    case None => assert Changes(ts, v) == cs;
    case Some(a) => assert Changes(ts, v)[..|cs|] == cs;
  }

  /** A delayed check keeps the pool sound, for any thresholds at any time. */
  lemma {:induction false} ReadingKeepsPool(e: Engine, ts: seq<Threshold>, v: Double, at: int)
    requires PoolOk(e)
    ensures var e' := ApplyAllDelayed(e, Changes(ts, v), at);
      && PoolOk(e') && |e'.waits| >= |e.waits| && |e'.slots| == Max(|e.slots|, |e'.waits|)
  {
    if ts == [] {
      UsedCountBounds(e.slots);
    } else {
      var init, last := ts[..|ts| - 1], ts[|ts| - 1];
      ReadingKeepsPool(e, init, v, at);
      DelayedOneMore(e, ts, v, at);
      if Verdict(last, v).Some? {
        ApplyKeepsPool(ApplyAllDelayed(e, Changes(init, v), at), Change(last, Verdict(last, v).value, v), at);
      }
    }
  }

  lemma ApplyKeepsMid(e: Engine, done: seq<Threshold>, c: Change, at: int)
    requires Mid(e.waits, done, at) && !Handled(done, c.threshold.key)
    ensures var e' := ApplyDelayed(e, c, at);
      Mid(e'.waits, done + [c.threshold], at) && e'.alarms.Keys == e.alarms.Keys
  {
    if Delays(e, c) {
      MidAppend(e.waits, done, StartTimer(e, c, at).waits[|e.waits|], at);
    } else {
      MidMore(e.waits, done, c.threshold, at);
    }
  }

  /** One delayed check of a reading keeps the waits in order. */
  lemma {:induction false} DelayedReading(e: Engine, ts: seq<Threshold>, v: Double, at: int)
    requires KeysDistinct(ts) && Mid(e.waits, [], at)
    ensures var e' := ApplyAllDelayed(e, Changes(ts, v), at);
      Mid(e'.waits, ts, at) && e'.alarms.Keys == e.alarms.Keys
  {
    if ts != [] {
      var init, last := ts[..|ts| - 1], ts[|ts| - 1];
      DelayedReading(e, init, v, at);
      var before := ApplyAllDelayed(e, Changes(init, v), at);
      assert !Handled(init, last.key);
      assert init + [last] == ts;
      DelayedOneMore(e, ts, v, at);
      match Verdict(last, v)
      case None => MidMore(before.waits, init, last, at);
      case Some(a) => ApplyKeepsMid(before, init, Change(last, a, v), at);
    }
  }

  /** Where each alarm ends up moves as the undelayed alarm would. */
  lemma {:induction false} DelayedReadingMoves(e: Engine, ts: seq<Threshold>, v: Double, at: int, key: Key)
    requires KeysDistinct(ts) && PoolOk(e) && Mid(e.waits, [], at) && key in e.alarms
    ensures var e' := ApplyAllDelayed(e, Changes(ts, v), at);
      key in e'.alarms && EventualAlarm(e', key) == Moved(ts, v, key, EventualAlarm(e, key))
  {
    if ts != [] {
      var init, last := ts[..|ts| - 1], ts[|ts| - 1];
      ReadingKeepsPool(e, init, v, at);
      DelayedReading(e, init, v, at);
      DelayedReadingMoves(e, init, v, at, key);
      DelayedOneMore(e, ts, v, at);
      if Verdict(last, v).Some? {
        ApplyMovesEventual(ApplyAllDelayed(e, Changes(init, v), at), Change(last, Verdict(last, v).value, v), at, key);
      }
    }
  }

  // ----- Whole runs -----

  lemma {:induction false} NowKeepsTimers(e: Engine, cs: seq<Change>)
    ensures var e' := ApplyAllNow(e, cs);
      e'.slots == e.slots && e'.waits == e.waits && e'.alarms.Keys == e.alarms.Keys
  {
    if cs != [] { NowKeepsTimers(e, cs[..|cs| - 1]); }
  }

  lemma RemoveKeepsOrder(waits: seq<Wait>, i: nat)
    requires Ordered(waits) && i < |waits|
    ensures Ordered(waits[..i] + waits[i + 1..])
  {
    var rest := waits[..i] + waits[i + 1..];
    forall j, k | 0 <= j < k < |rest|
      ensures rest[j].deadline <= rest[k].deadline
      ensures rest[j].threshold.key == rest[k].threshold.key ==> rest[j].deadline < rest[k].deadline
    {
      assert rest[j] == waits[if j < i then j else j + 1] && rest[k] == waits[if k < i then k else k + 1];
    }
  }

  lemma StepKeepsPool(s: System, ts: seq<Threshold>, ev: Event)
    requires PoolFits(s)
    ensures PoolFits(Step(s, ts, ev))
    ensures Step(s, ts, ev).peak == Max(s.peak, |Step(s, ts, ev).engine.waits|)
  {
    UsedCountBounds(s.engine.slots);
    match ev
    case Reading(v, at) => ReadingKeepsPool(s.engine, ts, v, at);
    case Timer(i, at, ok, powerGood) =>
      if Outstanding(s.engine, i) {
        assert Holds(s.engine.slots, s.engine.waits[i]);
        ExpireKeepsPool(s.engine, i, ok, powerGood);
      }
    case PowerLoss(v) => NowKeepsTimers(s.engine, Clearing(ts, v));
  }

  lemma {:induction false} AlwaysFits(s: System, ts: seq<Threshold>, es: seq<Event>)
    requires PoolFits(s)
    ensures PoolFits(Run(s, ts, es))
  {
    if es != [] {
      AlwaysFits(s, ts, es[..|es| - 1]);
      StepKeepsPool(Run(s, ts, es[..|es| - 1]), ts, es[|es| - 1]);
    }
  }

  lemma StepKeepsOrder(s: System, ts: seq<Threshold>, ev: Event)
    requires KeysDistinct(ts) && InOrder(s) && Timely(s, ev)
    ensures InOrder(Step(s, ts, ev)) && Step(s, ts, ev).engine.alarms.Keys == s.engine.alarms.Keys
  {
    match ev
    case Reading(v, at) => DelayedReading(s.engine, ts, v, at);
    case Timer(i, at, ok, powerGood) => RemoveKeepsOrder(s.engine.waits, i);
    case PowerLoss(v) => NowKeepsTimers(s.engine, Clearing(ts, v));
  }

  lemma {:induction false} AlwaysInOrder(registered: set<Key>, clock: int, ts: seq<Threshold>, es: seq<Event>)
    requires KeysDistinct(ts) && AllTimely(Start(registered, clock), ts, es)
    ensures InOrder(Run(Start(registered, clock), ts, es))
    ensures Run(Start(registered, clock), ts, es).engine.alarms.Keys == registered
  {
    if es != [] {
      AlwaysInOrder(registered, clock, ts, es[..|es| - 1]);
      StepKeepsOrder(Run(Start(registered, clock), ts, es[..|es| - 1]), ts, es[|es| - 1]);
    }
  }

  /** How many waits are outstanding at the start and after each event. */
  function WaitCounts(s: System, ts: seq<Threshold>, es: seq<Event>): seq<nat> {
    if es == [] then [|s.engine.waits|]
    else WaitCounts(s, ts, es[..|es| - 1]) + [|Run(s, ts, es).engine.waits|]
  }

  lemma {:induction false} PeakIsMaximum(s: System, ts: seq<Threshold>, es: seq<Event>)
    requires PoolFits(s) && s.peak == |s.engine.waits|
    ensures Run(s, ts, es).peak in WaitCounts(s, ts, es)
    ensures forall n :: n in WaitCounts(s, ts, es) ==> n <= Run(s, ts, es).peak
  {
    if es != [] {
      var init := es[..|es| - 1];
      PeakIsMaximum(s, ts, init);
      AlwaysFits(s, ts, init);
      StepKeepsPool(Run(s, ts, init), ts, es[|es| - 1]);
    }
  }

  /** In every state of every run the pool is sound, and the timer list is exactly as long as the
      largest number of waits that were outstanding at one time so far: whatever the thresholds,
      the times of the readings and the order of the handlers. */
  lemma PoolOverRuns(registered: set<Key>, clock: int, ts: seq<Threshold>, es: seq<Event>)
    ensures var s := Start(registered, clock);
      var e := Run(s, ts, es).engine;
      && PoolOk(e)
      && |e.slots| in WaitCounts(s, ts, es) && forall n :: n in WaitCounts(s, ts, es) ==> n <= |e.slots|
  {
    var s := Start(registered, clock);
    AlwaysFits(s, ts, es);
    PeakIsMaximum(s, ts, es);
  }

  // ----- Agreement with the undelayed trigger -----

  lemma ReadingStep(s: System, ts: seq<Threshold>, v: Double, at: int, t: Threshold, vs: seq<Double>)
    requires KeysDistinct(ts) && PoolOk(s.engine) && InOrder(s) && t in ts && t.key in s.engine.alarms && s.latest < at
    requires EventualAlarm(s.engine, t.key) == AlarmAfter(t, vs)
    ensures var e' := Step(s, ts, Reading(v, at)).engine;
      t.key in e'.alarms && EventualAlarm(e', t.key) == AlarmAfter(t, vs + [v])
  {
    assert (vs + [v])[..|vs|] == vs;
    DelayedReadingMoves(s.engine, ts, v, at, t.key);
    MovedIsVerdict(ts, v, t, EventualAlarm(s.engine, t.key));
  }

  lemma TimerStep(e: Engine, i: nat, key: Key)
    requires i < |e.waits| && e.waits[i].slot < |e.slots| && key in e.alarms
    requires Ordered(e.waits)
    requires forall j :: 0 <= j < |e.waits| ==> e.waits[i].deadline <= e.waits[j].deadline
    ensures var e' := Expire(e, i, true, true);
      key in e'.alarms && EventualAlarm(e', key) == EventualAlarm(e, key)
  {
    EventualRemove(e.waits, i, key, e.alarms[key]);
  }

  lemma CleanStep(s: System, ts: seq<Threshold>, ev: Event, t: Threshold, vs: seq<Double>)
    requires KeysDistinct(ts) && PoolOk(s.engine) && InOrder(s) && t in ts && t.key in s.engine.alarms
    requires Clean([ev]) && Timely(s, ev)
    requires EventualAlarm(s.engine, t.key) == AlarmAfter(t, vs)
    ensures var s' := Step(s, ts, ev);
      && t.key in s'.engine.alarms
      && EventualAlarm(s'.engine, t.key) == AlarmAfter(t, vs + if ev.Reading? then [ev.v] else [])
  {
    assert ev in [ev] && vs + [] == vs;
    match ev
    case Reading(v, at) => ReadingStep(s, ts, v, at, t, vs);
    case Timer(i, _, _, _) => TimerStep(s.engine, i, t.key);
  }

  /** At any moment of a clean run, the alarm a key will show once its waits are handled is what
      the undelayed trigger shows after the same readings. */
  lemma {:induction false} DelayedAgrees(
    registered: set<Key>, clock: int, ts: seq<Threshold>, es: seq<Event>, t: Threshold)
    requires KeysDistinct(ts) && t in ts && t.key in registered
    requires Clean(es) && AllTimely(Start(registered, clock), ts, es)
    ensures var s0 := Start(registered, clock);
      && t.key in Run(s0, ts, es).engine.alarms
      && EventualAlarm(Run(s0, ts, es).engine, t.key) == AlarmAfter(t, Readings(es))
  {
    if es != [] {
      var s0 := Start(registered, clock);
      var init, ev := es[..|es| - 1], es[|es| - 1];
      DelayedAgrees(registered, clock, ts, init, t);
      AlwaysFits(s0, ts, init);
      AlwaysInOrder(registered, clock, ts, init);
      CleanStep(Run(s0, ts, init), ts, ev, t, Readings(init));
    }
  }

  /** Once the pending timers have drained, every alarm of the delayed engine equals the alarm
      of the engine that never delays, fed with the same readings. */
  lemma DrainedAgrees(registered: set<Key>, clock: int, ts: seq<Threshold>, es: seq<Event>, t: Threshold)
    requires KeysDistinct(ts) && t in ts && t.key in registered
    requires Clean(es) && AllTimely(Start(registered, clock), ts, es)
    requires Run(Start(registered, clock), ts, es).engine.waits == []
    ensures var s0 := Start(registered, clock);
      var vs := Readings(es);
      && t.key in Run(s0, ts, es).engine.alarms && t.key in ImmediateRun(s0.engine, ts, vs).alarms
      && Run(s0, ts, es).engine.alarms[t.key] == ImmediateRun(s0.engine, ts, vs).alarms[t.key]
  {
    var s0 := Start(registered, clock);
    DelayedAgrees(registered, clock, ts, es, t);
    ImmediateRunIsTrigger(s0.engine, ts, Readings(es), t);
  }

  lemma {:induction false} RunConcat(s: System, ts: seq<Threshold>, es: seq<Event>, ds: seq<Event>)
    ensures Run(s, ts, es + ds) == Run(Run(s, ts, es), ts, ds)
    ensures AllTimely(s, ts, es + ds) <==> AllTimely(s, ts, es) && AllTimely(Run(s, ts, es), ts, ds)
  {
    if ds == [] {
      assert es + ds == es;
    } else {
      RunConcat(s, ts, es, ds[..|ds| - 1]);
      assert (es + ds)[..|es + ds| - 1] == es + ds[..|ds| - 1];
    }
  }

  lemma RunOfOne(s: System, ts: seq<Threshold>, ev: Event)
    ensures Run(s, ts, [ev]) == Step(s, ts, ev) && (AllTimely(s, ts, [ev]) <==> Timely(s, ev))
  {
    assert [ev][..0] == [];
  }

  lemma {:induction false} EarliestWait(waits: seq<Wait>) returns (i: nat)
    requires waits != []
    ensures i < |waits| && forall j :: 0 <= j < |waits| ==> waits[i].deadline <= waits[j].deadline
  {
    var n := |waits| - 1;
    i := n;
    if n > 0 {
      var k := EarliestWait(waits[..n]);
      if waits[k].deadline <= waits[n].deadline { i := k; }
    }
  }

  /** From every state with a sound pool the event loop can drain: as many handlers as there are
      waits, each when it is due. */
  lemma {:induction false} CanDrain(s: System, ts: seq<Threshold>) returns (ds: seq<Event>)
    requires PoolFits(s)
    ensures Clean(ds) && AllTimely(s, ts, ds) && (forall d :: d in ds ==> d.Timer?) && |ds| == |s.engine.waits|
    ensures Run(s, ts, ds).engine.waits == []
    decreases |s.engine.waits|
  {
    ds := [];
    if s.engine.waits != [] {
      var i := EarliestWait(s.engine.waits);
      assert Holds(s.engine.slots, s.engine.waits[i]);
      var d := Timer(i, Max(s.clock, s.engine.waits[i].deadline), true, true);
      StepKeepsPool(s, ts, d);
      var rest := CanDrain(Step(s, ts, d), ts);
      RunOfOne(s, ts, d);
      RunConcat(s, ts, [d], rest);
      ds := [d] + rest;
    }
  }

  // ----- Low alarms are old enough -----

  ghost predicate Caused(ts: seq<Threshold>, es: seq<Event>, w: Wait) {
    && w.threshold in ts
    && exists n :: 0 <= n < |es| && es[n].Reading? && es[n].at + 5 == w.deadline &&
         Verdict(w.threshold, es[n].v) == Some(w.asserting)
  }

  lemma {:induction false} NewWaits(e: Engine, ts: seq<Threshold>, v: Double, at: int)
    ensures forall w :: w in ApplyAllDelayed(e, Changes(ts, v), at).waits ==>
      || w in e.waits
      || (w.threshold in ts && w.deadline == at + 5 && Verdict(w.threshold, v) == Some(w.asserting))
  {
    if ts != [] {
      NewWaits(e, ts[..|ts| - 1], v, at);
      DelayedOneMore(e, ts, v, at);
    }
  }

  lemma {:induction false} ReadingsRaiseNoLow(e: Engine, cs: seq<Change>, at: int, key: Key)
    requires key.direction == Low && key in e.alarms
    ensures var e' := ApplyAllDelayed(e, cs, at);
      key in e'.alarms && (e'.alarms[key] ==> e.alarms[key])
  {
    if cs != [] { ReadingsRaiseNoLow(e, cs[..|cs| - 1], at, key); }
  }

  lemma {:induction false} ClearingRaisesNothing(e: Engine, cs: seq<Change>, key: Key)
    requires key in e.alarms && forall c :: c in cs ==> !c.asserted
    ensures var e' := ApplyAllNow(e, cs); key in e'.alarms && (e'.alarms[key] ==> e.alarms[key])
  {
    if cs != [] { ClearingRaisesNothing(e, cs[..|cs| - 1], key); }
  }

  lemma {:induction false} WaitsAreCaused(registered: set<Key>, clock: int, ts: seq<Threshold>, es: seq<Event>)
    ensures var s := Run(Start(registered, clock), ts, es);
      s.engine.alarms.Keys == registered && forall w :: w in s.engine.waits ==> Caused(ts, es, w)
  {
    if es != [] {
      var m := |es| - 1;
      var init, ev := es[..m], es[m];
      WaitsAreCaused(registered, clock, ts, init);
      var s := Run(Start(registered, clock), ts, init);
      var s' := Step(s, ts, ev);
      match ev {
        case Reading(v, at) =>
          NewWaits(s.engine, ts, v, at);
          DelayedKeepsKeys(s.engine, Changes(ts, v), at);
        case Timer(_, _, _, _) =>
        case PowerLoss(v) => NowKeepsTimers(s.engine, Clearing(ts, v));
      }
      forall w | w in s'.engine.waits ensures Caused(ts, es, w) {
        if w in s.engine.waits {
          var n :| 0 <= n < m && init[n].Reading? && init[n].at + 5 == w.deadline &&
                   Verdict(w.threshold, init[n].v) == Some(w.asserting);
          assert es[n] == init[n];
        } else {
          assert es[m].Reading?;
        }
      }
    }
  }

  lemma {:induction false} DelayedKeepsKeys(e: Engine, cs: seq<Change>, at: int)
    ensures ApplyAllDelayed(e, cs, at).alarms.Keys == e.alarms.Keys
  {
    if cs != [] { DelayedKeepsKeys(e, cs[..|cs| - 1], at); }
  }

  /** In every run, power losses and timer errors included, a low alarm goes up only in a clean
      timer handler while power is good, five seconds or more after a reading at or below the
      threshold: a dip that power loss explains sooner never raises it. */
  lemma LowAlarmsAreOldEnough(registered: set<Key>, clock: int, ts: seq<Threshold>, es: seq<Event>, ev: Event, key: Key)
    requires key.direction == Low && key in registered
    requires Timely(Run(Start(registered, clock), ts, es), ev)
    ensures var s := Run(Start(registered, clock), ts, es);
      var s' := Step(s, ts, ev);
      && key in s.engine.alarms && key in s'.engine.alarms
      && (!s.engine.alarms[key] && s'.engine.alarms[key] ==>
            && ev.Timer? && ev.ok && ev.powerGood
            && exists n, t :: 0 <= n < |es| && t in ts && t.key == key && es[n].Reading? &&
                 es[n].at + 5 <= ev.at && es[n].v.AtMost(t.value))
  {
    WaitsAreCaused(registered, clock, ts, es);
    var s := Run(Start(registered, clock), ts, es);
    var s' := Step(s, ts, ev);
    match ev
    case Reading(v, at) => ReadingsRaiseNoLow(s.engine, Changes(ts, v), at, key);
    case PowerLoss(v) => ClearingRaisesNothing(s.engine, Clearing(ts, v), key);
    case Timer(i, at, ok, powerGood) =>
      if !s.engine.alarms[key] && s'.engine.alarms[key] {
        var w := s.engine.waits[i];
        assert Caused(ts, es, w) && w.asserting && w.threshold.key == key;
        var n :| 0 <= n < |es| && es[n].Reading? && es[n].at + 5 == w.deadline &&
                 Verdict(w.threshold, es[n].v) == Some(w.asserting);
        assert es[n].v.AtMost(w.threshold.value);
      }
  }
}
