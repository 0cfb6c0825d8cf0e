/** What one step of the delayed threshold engine does to one alarm, in terms of the reading, the
    alarm and the outstanding waits alone. */
module ThresholdSteps {
  import opened Basics
  import opened Thresholds
  import opened SchmittTrigger
  import opened TimerPool
  import opened ThresholdRuns

  /** The outstanding waits of one alarm, in starting order. */
  function WaitsFor(waits: seq<Wait>, key: Key): seq<Wait> {
    if waits == [] then []
    else
      var w := waits[|waits| - 1];
      WaitsFor(waits[..|waits| - 1], key) + if w.threshold.key == key then [w] else []
  }

  function SignalsFor(signals: seq<Signal>, key: Key): seq<Signal> {
    if signals == [] then []
    else
      var s := signals[|signals| - 1];
      SignalsFor(signals[..|signals| - 1], key) + if s.key == key then [s] else []
  }

  /** One wait more, of five seconds, that remembers the reading. */
  predicate OneMoreWait(before: seq<Wait>, after: seq<Wait>, t: Threshold, asserting: bool, v: Double, at: int) {
    && |after| == |before| + 1 && after[..|before|] == before
    && var w := after[|before|];
       w.deadline == at + 5 && w.threshold == t && w.asserting == asserting && w.assertValue == v
  }

  ghost predicate AssertPending(waits: seq<Wait>, key: Key) {
    exists w :: w in waits && w.threshold.key == key && w.asserting
  }

  predicate Untouched(e: Engine, e': Engine, key: Key) {
    && key in e.alarms && key in e'.alarms && e'.alarms[key] == e.alarms[key]
    && WaitsFor(e'.waits, key) == WaitsFor(e.waits, key)
    && SignalsFor(e'.signals, key) == SignalsFor(e.signals, key)
  }

  /** The alarm of `key` is `up` now, and a change has been signalled with the value. */
  predicate AlarmIs(e: Engine, e': Engine, key: Key, up: bool, v: Double) {
    && key in e.alarms && key in e'.alarms && e'.alarms[key] == up
    && SignalsFor(e'.signals, key) ==
       SignalsFor(e.signals, key) + if e.alarms[key] != up then [Signal(key, up, v)] else []
  }

  lemma SignalsForAppend(signals: seq<Signal>, s: Signal, key: Key)
    ensures SignalsFor(signals + [s], key) == SignalsFor(signals, key) + if s.key == key then [s] else []
  {
    assert (signals + [s])[..|signals|] == signals;
  }

  lemma WaitsForAppend(waits: seq<Wait>, w: Wait, key: Key)
    ensures WaitsFor(waits + [w], key) == WaitsFor(waits, key) + if w.threshold.key == key then [w] else []
  {
    assert (waits + [w])[..|waits|] == waits;
  }

  lemma {:induction false} WaitsForIn(waits: seq<Wait>, key: Key)
    ensures forall w :: w in WaitsFor(waits, key) <==> w in waits && w.threshold.key == key
  {
    if waits != [] {
      WaitsForIn(waits[..|waits| - 1], key);
      assert waits == waits[..|waits| - 1] + [waits[|waits| - 1]];
    }
  }

  lemma AssertMoves(e: Engine, key: Key, up: bool, v: Double)
    requires key in e.alarms
    ensures AlarmIs(e, Assert(e, key, up, v), key, up, v)
    ensures Assert(e, key, up, v).waits == e.waits && Assert(e, key, up, v).slots == e.slots
    ensures forall other :: other in e.alarms && other != key ==> Untouched(e, Assert(e, key, up, v), other)
  {
    SignalsForAppend(e.signals, Signal(key, up, v), key);
    forall other | other in e.alarms && other != key ensures Untouched(e, Assert(e, key, up, v), other) {
      SignalsForAppend(e.signals, Signal(key, up, v), other);
    }
  }

  lemma ApplyElsewhere(e: Engine, c: Change, at: int, key: Key)
    requires key in e.alarms && c.threshold.key != key
    ensures Untouched(e, ApplyDelayed(e, c, at), key)
  {
    if Delays(e, c) {
      var e' := StartTimer(e, c, at);
      WaitsForAppend(e.waits, e'.waits[|e.waits|], key);
    } else if c.threshold.key in e.alarms {
      AssertMoves(e, c.threshold.key, c.asserted, c.assertValue);
    }
  }

  lemma {:induction false} ReadingElsewhere(e: Engine, ts: seq<Threshold>, v: Double, at: int, key: Key)
    requires key in e.alarms && forall t :: t in ts ==> t.key != key
    ensures Untouched(e, ApplyAllDelayed(e, Changes(ts, v), at), key)
  {
    if ts != [] {
      var init, last := ts[..|ts| - 1], ts[|ts| - 1];
      assert last in ts && forall t :: t in init ==> t in ts;
      ReadingElsewhere(e, init, v, at, key);
      DelayedOneMore(e, ts, v, at);
      if Verdict(last, v).Some? {
        ApplyElsewhere(ApplyAllDelayed(e, Changes(init, v), at), Change(last, Verdict(last, v).value, v), at, key);
      }
    }
  }

  /** What a reading at time `at` must do to the alarm of `t`. */
  ghost predicate Answers(e: Engine, e': Engine, t: Threshold, v: Double, at: int) {
    var was, now := WaitsFor(e.waits, t.key), WaitsFor(e'.waits, t.key);
    if !Crossed(t, v) && !BeyondBand(t, v) then
      Untouched(e, e', t.key)
    else if t.key.direction == High then
      AlarmIs(e, e', t.key, Crossed(t, v), v) && now == was
    else if Crossed(t, v) || AssertPending(e.waits, t.key) then
      t.key in e.alarms && AlarmIs(e, e', t.key, e.alarms[t.key], v) && OneMoreWait(was, now, t, Crossed(t, v), v, at)
    else
      AlarmIs(e, e', t.key, false, v) && now == was
  }

  lemma VerdictIs(t: Threshold, v: Double)
    ensures Verdict(t, v) == if Crossed(t, v) then Some(true) else if BeyondBand(t, v) then Some(false) else None
    ensures Crossed(t, v) || BeyondBand(t, v) ==> t.key.direction == High || t.key.direction == Low
  {
  }

  lemma StartsWait(e: Engine, t: Threshold, a: bool, v: Double, at: int)
    requires t.key in e.alarms
    ensures var e' := StartTimer(e, Change(t, a, v), at);
      && AlarmIs(e, e', t.key, e.alarms[t.key], v)
      && OneMoreWait(WaitsFor(e.waits, t.key), WaitsFor(e'.waits, t.key), t, a, v, at)
  {
    var e' := StartTimer(e, Change(t, a, v), at);
    WaitsForAppend(e.waits, e'.waits[|e.waits|], t.key);
  }

  lemma PendingIsActive(e: Engine, key: Key)
    requires PoolOk(e)
    ensures HasActive(e.slots, key, true) <==> AssertPending(e.waits, key)
  {
    HasActiveIsOutstanding(e, key, true);
    if AssertPending(e.waits, key) {
      var w :| w in e.waits && w.threshold.key == key && w.asserting;
      var j :| 0 <= j < |e.waits| && e.waits[j] == w;
    }
  }

  lemma ApplyAnswers(e: Engine, t: Threshold, v: Double, at: int)
    requires PoolOk(e) && t.key in e.alarms
    ensures match Verdict(t, v)
      case None => Answers(e, e, t, v, at)
      case Some(a) => Answers(e, ApplyDelayed(e, Change(t, a, v), at), t, v, at)
  {
    VerdictIs(t, v);
    PendingIsActive(e, t.key);
    if Verdict(t, v).Some? {
      var a := Verdict(t, v).value;
      StartsWait(e, t, a, v, at);
      AssertMoves(e, t.key, a, v);
      if a || HasActive(e.slots, t.key, true) {
        assert t.key.direction == Low ==> ApplyDelayed(e, Change(t, a, v), at) == StartTimer(e, Change(t, a, v), at);
      } else {
        assert ApplyDelayed(e, Change(t, a, v), at) == Assert(e, t.key, a, v);
      }
    }
  }

  lemma AnswersAfter(e: Engine, mid: Engine, e': Engine, t: Threshold, v: Double, at: int)
    requires Untouched(e, mid, t.key) && Answers(mid, e', t, v, at)
    ensures Answers(e, e', t, v, at)
  {
    WaitsForIn(e.waits, t.key);
    WaitsForIn(mid.waits, t.key);
    assert AssertPending(e.waits, t.key) <==> exists w :: w in WaitsFor(e.waits, t.key) && w.asserting;
    assert AssertPending(mid.waits, t.key) <==> exists w :: w in WaitsFor(mid.waits, t.key) && w.asserting;
  }

  lemma AnswersBefore(e: Engine, mid: Engine, e': Engine, t: Threshold, v: Double, at: int)
    requires Answers(e, mid, t, v, at) && Untouched(mid, e', t.key)
    ensures Answers(e, e', t, v, at)
  {
  }

  /** A reading between the thresholds' lines changes nothing; otherwise a high alarm moves in the
      step itself, a low alarm that is crossed starts a wait, and a low alarm that is passed back
      beyond its band comes down in the step itself unless an assert wait is outstanding: then it
      stays as it is, and a wait to take it down is started. */
  lemma {:induction false} ReadingAnswers(e: Engine, ts: seq<Threshold>, v: Double, at: int, t: Threshold)
    requires PoolOk(e) && KeysDistinct(ts) && t in ts && t.key in e.alarms
    ensures Answers(e, ApplyAllDelayed(e, Changes(ts, v), at), t, v, at)
  {
    var init, last := ts[..|ts| - 1], ts[|ts| - 1];
    var mid := ApplyAllDelayed(e, Changes(init, v), at);
    DelayedOneMore(e, ts, v, at);
    if last == t {
      ReadingElsewhere(e, init, v, at, t.key);
      ReadingKeepsPool(e, init, v, at);
      ApplyAnswers(mid, t, v, at);
      AnswersAfter(e, mid, ApplyAllDelayed(e, Changes(ts, v), at), t, v, at);
    } else {
      assert t in init;
      ReadingAnswers(e, init, v, at, t);
      if Verdict(last, v).Some? {
        ApplyElsewhere(mid, Change(last, Verdict(last, v).value, v), at, t.key);
        AnswersBefore(e, mid, ApplyAllDelayed(e, Changes(ts, v), at), t, v, at);
      }
    }
  }

  /** The same at any moment of any run. */
  lemma ReadingInRun(registered: set<Key>, clock: int, ts: seq<Threshold>, es: seq<Event>,
                     v: Double, at: int, t: Threshold)
    requires KeysDistinct(ts) && t in ts && t.key in registered
    ensures var s := Run(Start(registered, clock), ts, es);
      Answers(s.engine, Step(s, ts, Reading(v, at)).engine, t, v, at)
  {
    var s := Run(Start(registered, clock), ts, es);
    AlwaysFits(Start(registered, clock), ts, es);
    WaitsAreCaused(registered, clock, ts, es);
    ReadingAnswers(s.engine, ts, v, at, t);
  }

  /** A handler takes its own wait away and no other. Its alarm is set as the wait says, on a clean
      expiry with power good; in any other case, and every other alarm, stays as it is. */
  lemma HandlerAnswers(e: Engine, i: nat, ok: bool, powerGood: bool, key: Key)
    requires Outstanding(e, i) && key in e.alarms
    ensures var e', w := Expire(e, i, ok, powerGood), e.waits[i];
      && e'.waits == e.waits[..i] + e.waits[i + 1..] && !e'.slots[w.slot].used
      && (if ok && powerGood && w.threshold.key == key then AlarmIs(e, e', key, w.asserting, w.assertValue)
          else key in e'.alarms && AlarmIs(e, e', key, e.alarms[key], w.assertValue))
  {
    var w := e.waits[i];
    var freed := e.(slots := e.slots[w.slot := e.slots[w.slot].(used := false)],
                    waits := e.waits[..i] + e.waits[i + 1..]);
    if ok && powerGood && w.threshold.key in e.alarms {
      AssertMoves(freed, w.threshold.key, w.asserting, w.assertValue);
    }
  }

  /** Losing power takes down every alarm of a threshold and leaves the waits alone. */
  lemma {:induction false} PowerLossAnswers(e: Engine, ts: seq<Threshold>, v: Double, key: Key)
    requires key in e.alarms
    ensures var e' := ApplyAllNow(e, Clearing(ts, v));
      && e'.waits == e.waits && e'.slots == e.slots && key in e'.alarms
      && (if exists t :: t in ts && t.key == key then AlarmIs(e, e', key, false, v)
          else AlarmIs(e, e', key, e.alarms[key], v))
  {
    if ts != [] {
      var init, last := ts[..|ts| - 1], ts[|ts| - 1];
      assert ts == init + [last];
      assert Clearing(ts, v)[..|ts| - 1] == Clearing(init, v);
      PowerLossAnswers(e, init, v, key);
      var mid := ApplyAllNow(e, Clearing(init, v));
      if last.key in mid.alarms {
        AssertMoves(mid, last.key, false, v);
      }
      assert (exists t :: t in ts && t.key == key) <==> last.key == key || exists t :: t in init && t.key == key;
    }
  }
}
