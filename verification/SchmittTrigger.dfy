/** What the undelayed trigger of `checkThresholds` shows after a run of readings. */
module SchmittTrigger {
  import opened Basics
  import opened Thresholds

  predicate Crossed(t: Threshold, v: Double) {
    (t.key.direction == High && t.value.AtMost(v)) || (t.key.direction == Low && v.AtMost(t.value))
  }

  predicate BeyondBand(t: Threshold, v: Double) {
    || (t.key.direction == High && v.Less(t.value.Minus(t.hysteresis)))
    || (t.key.direction == Low && t.value.Plus(t.hysteresis).Less(v))
  }

  predicate KeysDistinct(ts: seq<Threshold>) {
    forall i, j :: 0 <= i < j < |ts| ==> ts[i].key != ts[j].key
  }

  /** The alarm of one threshold after the readings `vs`, starting from false. */
  function AlarmAfter(t: Threshold, vs: seq<Double>): bool {
    if vs == [] then false
    else
      match Verdict(t, vs[|vs| - 1])
      case Some(a) => a
      case None => AlarmAfter(t, vs[..|vs| - 1])
  }

  /** How often that alarm changed, which is how many signals were sent for it. */
  function Flips(t: Threshold, vs: seq<Double>): nat {
    if vs == [] then 0
    else
      var init := vs[..|vs| - 1];
      Flips(t, init) + if AlarmAfter(t, vs) != AlarmAfter(t, init) then 1 else 0
  }

  function Reals(vs: seq<Double>): seq<real> {
    if vs == [] then []
    else Reals(vs[..|vs| - 1]) + match vs[|vs| - 1] case Num(r) => [r] case NaN => []
  }

  function TotalVariation(rs: seq<real>): (v: real)
    ensures v >= 0.0
  {
    if |rs| < 2 then 0.0
    else TotalVariation(rs[..|rs| - 1]) + Abs(rs[|rs| - 1] - rs[|rs| - 2])
  }

  /** The alarm is up exactly when some reading crossed the threshold and no later one was
      beyond the hysteresis band without crossing again. */
  lemma {:induction false} AlarmClosedForm(t: Threshold, vs: seq<Double>)
    ensures AlarmAfter(t, vs) <==>
      exists i :: 0 <= i < |vs| && Crossed(t, vs[i]) &&
        forall j :: i < j < |vs| ==> Crossed(t, vs[j]) || !BeyondBand(t, vs[j])
  {
    if vs != [] {
      var n := |vs| - 1;
      var init := vs[..n];
      AlarmClosedForm(t, init);
      assert forall i :: 0 <= i < n ==> init[i] == vs[i];
      if Crossed(t, vs[n]) {
        assert Crossed(t, vs[n]) && |vs| == n + 1;
      } else if !BeyondBand(t, vs[n]) && AlarmAfter(t, init) {
        var i :| 0 <= i < n && Crossed(t, init[i]) &&
                 forall j :: i < j < n ==> Crossed(t, init[j]) || !BeyondBand(t, init[j]);
        assert Crossed(t, vs[i]);
        assert forall j :: i < j < |vs| ==> Crossed(t, vs[j]) || !BeyondBand(t, vs[j]);
      }
    }
  }

  /** k changes take (k-1) crossings of the hysteresis band. */
  function Travel(k: nat, h: real): real {
    if k < 2 then 0.0 else Travel(k - 1, h) + h
  }

  lemma {:induction false} TravelIsProduct(k: nat, h: real)
    requires k > 0
    ensures Travel(k, h) == (k - 1) as real * h
  {
    if k > 1 {
      TravelIsProduct(k - 1, h);
      assert (k - 1) as real * h == (k - 2) as real * h + h;
    }
  }

  lemma {:induction false} TravelNotPositive(k: nat, h: real)
    requires h < 0.0
    ensures Travel(k, h) <= 0.0
  {
    if k > 1 {
      TravelNotPositive(k - 1, h);
    }
  }

  lemma BandsFit(k: nat, h: real, room: real)
    requires k > 0 && room >= 0.0 && (h >= 0.0 ==> Travel(k, h) <= room)
    ensures (k - 1) as real * h <= room
  {
    TravelIsProduct(k, h);
    if h < 0.0 {
      TravelNotPositive(k, h);
    }
  }

  /** A reading that caused the trigger to stand where it stands. */
  predicate Anchors(t: Threshold, up: bool, p: real) {
    if up then Crossed(t, Num(p)) else BeyondBand(t, Num(p)) && !Crossed(t, Num(p))
  }

  lemma AnchorsAreApart(t: Threshold, h: real, up: bool, p: real, q: real)
    requires t.hysteresis == Num(h) && Anchors(t, up, p) && Anchors(t, !up, q)
    ensures Abs(q - p) >= h
  {
  }

  lemma FlipAnchors(t: Threshold, vs: seq<Double>, v: real)
    requires vs != [] && vs[|vs| - 1] == Num(v)
    requires AlarmAfter(t, vs) != AlarmAfter(t, vs[..|vs| - 1])
    ensures Anchors(t, AlarmAfter(t, vs), v)
  {
  }

  lemma RealsStep(vs: seq<Double>)
    requires vs != []
    ensures var rs, before := Reals(vs), Reals(vs[..|vs| - 1]);
      match vs[|vs| - 1]
      case NaN => rs == before
      case Num(v) => (
        && rs != [] && rs[|rs| - 1] == v
        && TotalVariation(rs) == TotalVariation(before) +
             if before == [] then 0.0 else Abs(v - before[|before| - 1]))
  {
    var rs := Reals(vs);
    if vs[|vs| - 1].Num? {
      assert rs[..|rs| - 1] == Reals(vs[..|vs| - 1]);
    }
  }

  /** The reading behind the last change, and how much travel the changes so far have used up. */
  lemma {:induction false} ChatterPotential(t: Threshold, h: real, vs: seq<Double>) returns (p: real)
    requires t.hysteresis == Num(h) && h >= 0.0
    ensures Flips(t, vs) == 0 ==> !AlarmAfter(t, vs)
    ensures Flips(t, vs) > 0 ==>
      var rs := Reals(vs);
      && rs != []
      && Anchors(t, AlarmAfter(t, vs), p)
      && Travel(Flips(t, vs), h) + Abs(rs[|rs| - 1] - p) <= TotalVariation(rs)
  {
    p := 0.0;
    if vs != [] {
      var init := vs[..|vs| - 1];
      p := ChatterPotential(t, h, init);
      RealsStep(vs);
      if AlarmAfter(t, vs) != AlarmAfter(t, init) {
        var v := vs[|vs| - 1].val;
        FlipAnchors(t, vs, v);
        if Flips(t, init) > 0 {
          AnchorsAreApart(t, h, AlarmAfter(t, init), p, v);
        }
        p := v;
      }
    }
  }

  lemma TravelWithinVariation(t: Threshold, h: real, vs: seq<Double>)
    requires t.hysteresis == Num(h) && h >= 0.0 && Flips(t, vs) > 0
    ensures Travel(Flips(t, vs), h) <= TotalVariation(Reals(vs))
  {
    var p := ChatterPotential(t, h, vs);
    var rs := Reals(vs);
    assert Abs(rs[|rs| - 1] - p) >= 0.0;
  }

  /** With k change signals, (k-1) hysteresis bands fit into the total variation of the readings. */
  lemma {:induction false} ChatterBound(t: Threshold, h: real, vs: seq<Double>, k: nat)
    requires t.hysteresis == Num(h) && k == Flips(t, vs) && k > 0
    ensures (k - 1) as real * h <= TotalVariation(Reals(vs))
  {
    if h >= 0.0 {
      TravelWithinVariation(t, h, vs);
    }
    BandsFit(k, h, TotalVariation(Reals(vs)));
  }

  // ----- The engine without delays shows exactly this -----

  function SignalCount(signals: seq<Signal>, key: Key): nat {
    if signals == [] then 0
    else SignalCount(signals[..|signals| - 1], key) + if signals[|signals| - 1].key == key then 1 else 0
  }

  lemma AssertOneAlarm(e: Engine, c: Key, asserting: bool, v: Double, key: Key)
    requires key in e.alarms
    ensures var e' := Assert(e, c, asserting, v);
      && e'.alarms.Keys == e.alarms.Keys
      && e'.alarms[key] == (if c == key then asserting else e.alarms[key])
      && SignalCount(e'.signals, key) ==
         SignalCount(e.signals, key) + if e'.alarms[key] != e.alarms[key] then 1 else 0
  {
    var s := Signal(c, asserting, v);
    assert (e.signals + [s])[..|e.signals|] == e.signals;
  }

  lemma ApplyOneMore(e: Engine, ts: seq<Threshold>, v: Double, key: Key)
    requires ts != [] && key in ApplyAllNow(e, Changes(ts[..|ts| - 1], v)).alarms
    ensures
      var last := ts[|ts| - 1];
      var before, after := ApplyAllNow(e, Changes(ts[..|ts| - 1], v)), ApplyAllNow(e, Changes(ts, v));
      && after.alarms.Keys == before.alarms.Keys
      && after.alarms[key] ==
         (if last.key == key && Verdict(last, v).Some? then Verdict(last, v).value else before.alarms[key])
      && SignalCount(after.signals, key) ==
         SignalCount(before.signals, key) + if after.alarms[key] != before.alarms[key] then 1 else 0
  {
    var last := ts[|ts| - 1];
    var cs := Changes(ts[..|ts| - 1], v);
    match Verdict(last, v)
    case None =>
      assert Changes(ts, v) == cs;
    case Some(a) =>
      assert Changes(ts, v)[..|cs|] == cs;
      AssertOneAlarm(ApplyAllNow(e, cs), last.key, a, v, key);
  }

  /** Where the thresholds `ts` move the alarm of `key` on one reading. */
  function Moved(ts: seq<Threshold>, v: Double, key: Key, was: bool): bool {
    if ts == [] then was
    else
      var last := ts[|ts| - 1];
      if last.key == key && Verdict(last, v).Some? then Verdict(last, v).value
      else Moved(ts[..|ts| - 1], v, key, was)
  }

  lemma {:induction false} MovedWithout(ts: seq<Threshold>, v: Double, key: Key, was: bool)
    requires forall t :: t in ts ==> t.key != key
    ensures Moved(ts, v, key, was) == was
  {
    if ts != [] { MovedWithout(ts[..|ts| - 1], v, key, was); }
  }

  lemma {:induction false} MovedIsVerdict(ts: seq<Threshold>, v: Double, t: Threshold, was: bool)
    requires KeysDistinct(ts) && t in ts
    ensures Moved(ts, v, t.key, was) == match Verdict(t, v) case Some(a) => a case None => was
  {
    var init, last := ts[..|ts| - 1], ts[|ts| - 1];
    if last == t {
      MovedWithout(init, v, t.key, was);
    } else {
      assert t in init;
      MovedIsVerdict(init, v, t, was);
    }
  }

  /** One undelayed check of a reading: the alarm moves, and a signal is sent if it changed. */
  lemma {:induction false} ImmediateReading(e: Engine, ts: seq<Threshold>, v: Double, key: Key)
    requires KeysDistinct(ts) && key in e.alarms
    ensures var e' := ApplyAllNow(e, Changes(ts, v));
      && e'.alarms.Keys == e.alarms.Keys
      && e'.alarms[key] == Moved(ts, v, key, e.alarms[key])
      && SignalCount(e'.signals, key) ==
         SignalCount(e.signals, key) + if e'.alarms[key] != e.alarms[key] then 1 else 0
  {
    if ts != [] {
      var init, last := ts[..|ts| - 1], ts[|ts| - 1];
      ImmediateReading(e, init, v, key);
      ApplyOneMore(e, ts, v, key);
      if last.key == key {
        MovedWithout(init, v, key, e.alarms[key]);
      }
    }
  }

  function ImmediateRun(e: Engine, ts: seq<Threshold>, vs: seq<Double>): Engine {
    if vs == [] then e
    else ApplyAllNow(ImmediateRun(e, ts, vs[..|vs| - 1]), Changes(ts, vs[|vs| - 1]))
  }

  /** `checkThresholds(Sensor*)` over a whole run: every alarm is its own trigger, and one
      signal is sent per change. */
  lemma {:induction false} ImmediateRunIsTrigger(e: Engine, ts: seq<Threshold>, vs: seq<Double>, t: Threshold)
    requires KeysDistinct(ts) && t in ts && t.key in e.alarms && !e.alarms[t.key]
    ensures var e' := ImmediateRun(e, ts, vs);
      && e'.alarms.Keys == e.alarms.Keys
      && e'.alarms[t.key] == AlarmAfter(t, vs)
      && SignalCount(e'.signals, t.key) == SignalCount(e.signals, t.key) + Flips(t, vs)
  {
    if vs != [] {
      var init := vs[..|vs| - 1];
      ImmediateRunIsTrigger(e, ts, init, t);
      var before := ImmediateRun(e, ts, init);
      ImmediateReading(before, ts, vs[|vs| - 1], t.key);
      MovedIsVerdict(ts, vs[|vs| - 1], t, before.alarms[t.key]);
    }
  }
}
