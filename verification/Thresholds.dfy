/** The threshold engine of src/Thresholds.cpp and src/Thresholds.hpp: alarms, the reusable
    timer pool that delays low alarms, and both `checkThresholds` entry points. */
module Thresholds {
  import opened Basics

  datatype Level = Warning | Critical | PerformanceLoss | SoftShutdown | HardShutdown | LevelError
  datatype Direction = High | Low | DirectionError

  datatype Key = Key(level: Level, direction: Direction)

  datatype Threshold = Threshold(key: Key, value: Double, hysteresis: Double)

  datatype Change = Change(threshold: Threshold, asserted: bool, assertValue: Double)

  datatype Signal = Signal(key: Key, asserted: bool, assertValue: Double)

  /** `TimerUsed`: one slot of the timer list. */
  datatype Slot = Slot(used: bool, key: Key, asserting: bool)

  /** One outstanding `async_wait` of the timer in slot `slot`, with what its handler captured. */
  datatype Wait = Wait(slot: nat, deadline: int, threshold: Threshold, asserting: bool, assertValue: Double)

  /** The alarm properties (one per registered key), the `ThresholdAsserted` signals sent so
      far, the timer list, and the waits the event loop still owes a handler call. */
  datatype Engine = Engine(alarms: map<Key, bool>, signals: seq<Signal>, slots: seq<Slot>, waits: seq<Wait>)

  const WAIT_SECONDS := 5

  // ----- Specification -----

  /** What one threshold says about a reading: crossed, passed back beyond the hysteresis
      band, or neither. */
  function Verdict(t: Threshold, v: Double): Option<bool> {
    match t.key.direction
    case High =>
      if t.value.AtMost(v) then Some(true)
      else if v.Less(t.value.Minus(t.hysteresis)) then Some(false)
      else None
    case Low =>
      if v.AtMost(t.value) then Some(true)
      else if t.value.Plus(t.hysteresis).Less(v) then Some(false)
      else None
    case DirectionError => None
  }

  function Changes(ts: seq<Threshold>, v: Double): seq<Change> {
    if ts == [] then []
    else
      var last := ts[|ts| - 1];
      Changes(ts[..|ts| - 1], v) +
      match Verdict(last, v) case Some(a) => [Change(last, a, v)] case None => []
  }

  /** `assertThresholds`: only a registered alarm whose value differs changes and signals. */
  function Assert(e: Engine, key: Key, asserting: bool, v: Double): Engine {
    if key in e.alarms && e.alarms[key] != asserting
    then e.(alarms := e.alarms[key := asserting], signals := e.signals + [Signal(key, asserting, v)])
    else e
  }

  predicate HasActive(slots: seq<Slot>, key: Key, asserting: bool) {
    exists s :: 0 <= s < |slots| && slots[s].used && slots[s].key == key && slots[s].asserting == asserting
  }

  function FirstFree(slots: seq<Slot>): (i: nat)
    ensures i <= |slots|
    ensures i < |slots| ==> !slots[i].used
    ensures forall j :: 0 <= j < i ==> slots[j].used
  {
    if slots == [] || !slots[0].used then 0 else 1 + FirstFree(slots[1..])
  }

  function StartTimer(e: Engine, c: Change, now: int): Engine {
    var i := FirstFree(e.slots);
    var taken := Slot(true, c.threshold.key, c.asserted);
    e.(slots := if i < |e.slots| then e.slots[i := taken] else e.slots + [taken],
       waits := e.waits + [Wait(i, now + WAIT_SECONDS, c.threshold, c.asserted, c.assertValue)])
  }

  /** Low asserts always wait; a low de-assert waits only behind a pending assert. */
  predicate Delays(e: Engine, c: Change) {
    c.threshold.key.direction == Low &&
    (c.asserted || HasActive(e.slots, c.threshold.key, !c.asserted))
  }

  function ApplyDelayed(e: Engine, c: Change, now: int): Engine {
    if Delays(e, c) then StartTimer(e, c, now)
    else Assert(e, c.threshold.key, c.asserted, c.assertValue)
  }

  function ApplyAllDelayed(e: Engine, cs: seq<Change>, now: int): Engine {
    if cs == [] then e
    else ApplyDelayed(ApplyAllDelayed(e, cs[..|cs| - 1], now), cs[|cs| - 1], now)
  }

  function ApplyAllNow(e: Engine, cs: seq<Change>): Engine {
    if cs == [] then e
    else
      var c := cs[|cs| - 1];
      Assert(ApplyAllNow(e, cs[..|cs| - 1]), c.threshold.key, c.asserted, c.assertValue)
  }

  const CRITICAL := {Key(Critical, High), Key(Critical, Low), Key(Critical, DirectionError)}

  /** The reading crosses a threshold of one of the keys. */
  predicate AnyCrossed(ts: seq<Threshold>, v: Double, keys: set<Key>) {
    exists t :: t in ts && t.key in keys && Verdict(t, v) == Some(true)
  }

  predicate AnyAsserted(cs: seq<Change>, keys: set<Key>) {
    exists c :: c in cs && c.threshold.key in keys && c.asserted
  }

  /** What `updateValueOnly` (src/sensor.hpp) asserts while the reading state is bad. */
  function Clearing(ts: seq<Threshold>, v: Double): seq<Change> {
    seq(|ts|, i requires 0 <= i < |ts| => Change(ts[i], false, v))
  }

  /** The handler of wait `i`: the slot is released in any case, the alarm is touched only on
      a clean expiry while the reading state is good. */
  function Expire(e: Engine, i: nat, ok: bool, powerGood: bool): Engine
    requires i < |e.waits| && e.waits[i].slot < |e.slots|
  {
    var w := e.waits[i];
    var freed := e.(slots := e.slots[w.slot := e.slots[w.slot].(used := false)],
                    waits := e.waits[..i] + e.waits[i + 1..]);
    if ok && powerGood then Assert(freed, w.threshold.key, w.asserting, w.assertValue) else freed
  }

  // ----- The source's own form -----

  class ThresholdEngine {
    var alarms: map<Key, bool>
    var signals: seq<Signal>
    var timers: seq<Slot>
    var waits: seq<Wait>

    ghost function State(): Engine reads this {
      Engine(alarms, signals, timers, waits)
    }

    constructor (registered: set<Key>)
      ensures State() == Engine(map k | k in registered :: false, [], [], [])
    {
      alarms := map k | k in registered :: false;
      signals, timers, waits := [], [], [];
    }

    method HasActiveTimer(key: Key, asserting: bool) returns (found: bool)
      ensures found <==> HasActive(timers, key, asserting)
    {
      for i := 0 to |timers|
        invariant forall s :: 0 <= s < i ==>
          !(timers[s].used && timers[s].key == key && timers[s].asserting == asserting)
      {
        if timers[i].used && timers[i].key == key && timers[i].asserting == asserting {
          return true;
        }
      }
      return false;
    }

    method StartWait(threshold: Threshold, asserting: bool, assertValue: Double, now: int)
      modifies this
      ensures State() == StartTimer(old(State()), Change(threshold, asserting, assertValue), now)
    {
      var pair := 0;
      while pair < |timers| && timers[pair].used
        invariant pair <= |timers|
        invariant FirstFree(timers) == pair + FirstFree(timers[pair..])
      {
        assert timers[pair..][1..] == timers[pair + 1..];
        pair := pair + 1;
      }
      var taken := Slot(true, threshold.key, asserting);
      if pair < |timers| {
        timers := timers[pair := taken];
      } else {
        timers := timers + [taken];
      }
      waits := waits + [Wait(pair, now + WAIT_SECONDS, threshold, asserting, assertValue)];
    }

    method AssertThresholds(assertValue: Double, key: Key, asserting: bool)
      modifies this`alarms, this`signals
      ensures State() == Assert(old(State()), key, asserting, assertValue)
    {
      if key !in alarms {
        return;
      }
      if alarms[key] != asserting {
        alarms := alarms[key := asserting];
        signals := signals + [Signal(key, asserting, assertValue)];
      }
    }

    /** The undelayed overload; the result is false exactly when a critical threshold is crossed. */
    method CheckThresholds(thresholds: seq<Threshold>, value: Double) returns (status: bool)
      modifies this`alarms, this`signals
      ensures State() == ApplyAllNow(old(State()), Changes(thresholds, value))
      ensures !status <==> AnyCrossed(thresholds, value, CRITICAL)
    {
      status := true;
      var changes := CollectChanges(thresholds, value);
      for i := 0 to |changes|
        invariant State() == ApplyAllNow(old(State()), changes[..i])
        invariant !status <==> AnyAsserted(changes[..i], CRITICAL)
      {
        var c := changes[i];
        PrefixGrows(changes, i, CRITICAL);
        CriticalKeys(c.threshold.key);
        AssertThresholds(c.assertValue, c.threshold.key, c.asserted);
        if c.threshold.key.level == Critical && c.asserted {
          status := false;
        }
      }
      assert changes[..|changes|] == changes;
      CrossedIsAsserted(thresholds, value, CRITICAL);
    }

    /** The overload used by sensors with a timer pool. A crossed critical LOW threshold does
        not make the result false: its assertion is only scheduled. */
    method CheckThresholdsPowerDelay(thresholds: seq<Threshold>, value: Double, now: int)
      returns (status: bool)
      modifies this
      ensures State() == ApplyAllDelayed(old(State()), Changes(thresholds, value), now)
      ensures !status <==> AnyCrossed(thresholds, value, {Key(Critical, High)})
    {
      status := true;
      var changes := CollectChanges(thresholds, value);
      for i := 0 to |changes|
        invariant State() == ApplyAllDelayed(old(State()), changes[..i], now)
        invariant !status <==> AnyAsserted(changes[..i], {Key(Critical, High)})
      {
        var c := changes[i];
        PrefixGrows(changes, i, {Key(Critical, High)});
        HasDirection(thresholds, value, c);
        var delay := false;
        if c.threshold.key.direction == Low {
          delay := c.asserted;
          if !delay {
            delay := HasActiveTimer(c.threshold.key, !c.asserted);
          }
        }
        if delay {
          StartWait(c.threshold, c.asserted, c.assertValue, now);
          continue;
        }
        AssertThresholds(c.assertValue, c.threshold.key, c.asserted);
        if c.threshold.key.level == Critical && c.asserted {
          status := false;
        }
      }
      assert changes[..|changes|] == changes;
      CrossedIsAsserted(thresholds, value, {Key(Critical, High)});
    }

    /** The handler of one wait: which wait it is comes from the event loop. */
    method OnTimer(i: nat, ok: bool, powerGood: bool)
      requires i < |waits| && waits[i].slot < |timers|
      modifies this
      ensures State() == Expire(old(State()), i, ok, powerGood)
    {
      var w := waits[i];
      waits := waits[..i] + waits[i + 1..];
      timers := timers[w.slot := timers[w.slot].(used := false)];
      if !ok {
        return;
      }
      if powerGood {
        AssertThresholds(w.assertValue, w.threshold.key, w.asserting);
      }
    }
  }

  /** `static checkThresholds`: the loop that pushes onto the change list. */
  method CollectChanges(thresholds: seq<Threshold>, value: Double) returns (changes: seq<Change>)
    ensures changes == Changes(thresholds, value)
  {
    changes := [];
    for i := 0 to |thresholds|
      invariant changes == Changes(thresholds[..i], value)
    {
      var t := thresholds[i];
      assert thresholds[..i + 1][..i] == thresholds[..i];
      if t.key.direction == High {
        if t.value.AtMost(value) {
          changes := changes + [Change(t, true, value)];
        } else if value.Less(t.value.Minus(t.hysteresis)) {
          changes := changes + [Change(t, false, value)];
        }
      } else if t.key.direction == Low {
        if value.AtMost(t.value) {
          changes := changes + [Change(t, true, value)];
        } else if t.value.Plus(t.hysteresis).Less(value) {
          changes := changes + [Change(t, false, value)];
        }
      }
    }
    assert thresholds[..|thresholds|] == thresholds;
  }

  lemma CriticalKeys(key: Key)
    ensures key in CRITICAL <==> key.level == Critical
  {
    match key.direction
    case High => case Low => case DirectionError =>
  }

  lemma PrefixGrows(cs: seq<Change>, i: nat, keys: set<Key>)
    requires i < |cs|
    ensures cs[..i + 1][..i] == cs[..i]
    ensures AnyAsserted(cs[..i + 1], keys) <==>
      AnyAsserted(cs[..i], keys) || (cs[i].threshold.key in keys && cs[i].asserted)
  {
    assert cs[..i + 1] == cs[..i] + [cs[i]];
    if c :| c in cs[..i] && c.threshold.key in keys && c.asserted {
      assert c in cs[..i + 1];
    }
    assert cs[i] in cs[..i + 1];
  }

  lemma CrossedIsAsserted(ts: seq<Threshold>, v: Double, keys: set<Key>)
    ensures AnyAsserted(Changes(ts, v), keys) <==> AnyCrossed(ts, v, keys)
  {
    ChangesAreVerdicts(ts, v);
    if t :| t in ts && t.key in keys && Verdict(t, v) == Some(true) {
      assert Change(t, true, v) in Changes(ts, v);
    }
  }

  lemma HasDirection(ts: seq<Threshold>, v: Double, c: Change)
    requires c in Changes(ts, v)
    ensures c.threshold.key.direction != DirectionError
  {
    ChangesAreVerdicts(ts, v);
    assert Verdict(c.threshold, v).Some?;
  }

  /** The change list holds exactly the thresholds that have a verdict on the reading. */
  lemma {:induction false} ChangesAreVerdicts(ts: seq<Threshold>, v: Double)
    ensures forall c :: c in Changes(ts, v) ==>
      c.threshold in ts && Verdict(c.threshold, v) == Some(c.asserted) && c.assertValue == v
    ensures forall t :: t in ts && Verdict(t, v).Some? ==> Change(t, Verdict(t, v).value, v) in Changes(ts, v)
  {
    if ts != [] {
      var init, last := ts[..|ts| - 1], ts[|ts| - 1];
      assert ts == init + [last];
      ChangesAreVerdicts(init, v);
    }
  }
}
