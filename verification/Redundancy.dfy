/** The fan redundancy classifier: `RedundancySensor::update` of src/fan/TachSensor.cpp. */
module Redundancy {
  datatype State = Full | Degraded | Failed
  datatype Log = Lost | Regained

  datatype Sensor = Sensor(statuses: map<string, bool>, state: State, logs: seq<Log>)

  // ----- Specification -----

  function FailedNames(statuses: map<string, bool>): set<string> {
    set n | n in statuses && statuses[n]
  }

  /** The state for a number of failed fans, `allowed` of which redundancy covers. */
  function Classify(allowed: nat, failed: nat): State {
    if failed == 0 then Full else if failed <= allowed then Degraded else Failed
  }

  function Update(allowed: nat, s: Sensor, name: string, failed: bool): Sensor {
    var statuses := s.statuses[name := failed];
    var state := Classify(allowed, |FailedNames(statuses)|);
    Sensor(statuses, state,
      s.logs +
      if state == s.state then []
      else if s.state == Full then [Lost]
      else if state == Full then [Regained]
      else [])
  }

  // ----- The source's own form -----

  class RedundancySensor {
    const count: nat
    var statuses: map<string, bool>
    var state: State
    var logs: seq<Log>

    ghost function View(): Sensor reads this {
      Sensor(statuses, state, logs)
    }

    constructor (count: nat)
      ensures this.count == count && View() == Sensor(map[], Full, [])
    {
      this.count, statuses, state, logs := count, map[], Full, [];
    }

    /** The loop stops at the first fan that is one too many; the classification is the one of
        the full count all the same. */
    method CountFailures() returns (newState: State)
      ensures newState == Classify(count, |FailedNames(statuses)|)
    {
      var failedCount := 0;
      newState := Full;
      var todo := statuses.Keys;
      ghost var seen: set<string> := {};
      while todo != {}
        invariant todo <= statuses.Keys && seen == FailedNames(statuses) - todo
        invariant failedCount == |seen| <= count && newState == Classify(count, failedCount)
        decreases |todo|
      {
        var n :| n in todo;
        todo := todo - {n};
        if statuses[n] {
          failedCount := failedCount + 1;
          seen := seen + {n};
        }
        if failedCount > count {
          SubsetIsNotLarger(seen, FailedNames(statuses));
          return Failed;
        }
        if failedCount != 0 {
          newState := Degraded;
        }
      }
      assert seen == FailedNames(statuses);
    }

    method UpdateStatus(name: string, failed: bool)
      modifies this
      ensures View() == Update(count, old(View()), name, failed)
    {
      statuses := statuses[name := failed];
      var newState := CountFailures();
      if state != newState {
        if state == Full {
          logs := logs + [Lost];
        } else if newState == Full {
          logs := logs + [Regained];
        }
        state := newState;
      }
    }
  }

  lemma {:induction false} SubsetIsNotLarger<T>(a: set<T>, b: set<T>)
    requires a <= b
    ensures |a| <= |b|
    decreases a
  {
    if x :| x in a {
      SubsetIsNotLarger(a - {x}, b - {x});
    }
  }

  // ----- Whole runs -----

  datatype Report = Report(name: string, failed: bool)

  function Run(allowed: nat, rs: seq<Report>): Sensor {
    if rs == [] then Sensor(map[], Full, [])
    else Update(allowed, Run(allowed, rs[..|rs| - 1]), rs[|rs| - 1].name, rs[|rs| - 1].failed)
  }

  /** The names whose latest report says failed. */
  ghost predicate LatestFailed(rs: seq<Report>, name: string) {
    exists i :: 0 <= i < |rs| && rs[i] == Report(name, true) && forall j :: i < j < |rs| ==> rs[j].name != name
  }

  lemma LatestFailedDrop(init: seq<Report>, r: Report, name: string)
    requires r.name != name && LatestFailed(init + [r], name)
    ensures LatestFailed(init, name)
  {
    var rs := init + [r];
    var i :| 0 <= i < |rs| && rs[i] == Report(name, true) && forall j :: i < j < |rs| ==> rs[j].name != name;
    assert forall j :: i < j < |init| ==> init[j].name == rs[j].name;
    assert init[i] == Report(name, true);
  }

  lemma LatestFailedStep(init: seq<Report>, r: Report, name: string)
    ensures LatestFailed(init + [r], name) <==> if r.name == name then r.failed else LatestFailed(init, name)
  {
    var rs, n := init + [r], |init|;
    assert rs[n] == r;
    if r.name != name {
      if LatestFailed(rs, name) { LatestFailedDrop(init, r, name); }
      if LatestFailed(init, name) {
        var i :| 0 <= i < n && init[i] == Report(name, true) && forall j :: i < j < n ==> init[j].name != name;
        assert rs[i] == Report(name, true);
      }
    }
  }

  lemma {:induction false} StatusesAreLatest(allowed: nat, rs: seq<Report>, name: string)
    ensures name in FailedNames(Run(allowed, rs).statuses) <==> LatestFailed(rs, name)
  {
    if rs != [] {
      var init, r := rs[..|rs| - 1], rs[|rs| - 1];
      assert rs == init + [r];
      StatusesAreLatest(allowed, init, name);
      LatestFailedStep(init, r, name);
    }
  }

  /** After every run the state is decided by how many names were last reported failed. */
  lemma StateIsByLatestFailures(allowed: nat, rs: seq<Report>, failed: set<string>)
    requires forall name :: name in failed <==> LatestFailed(rs, name)
    ensures var state := Run(allowed, rs).state;
      && (state == Full <==> |failed| == 0)
      && (state == Degraded <==> 1 <= |failed| <= allowed)
      && (state == Failed <==> |failed| > allowed)
  {
    forall name ensures name in failed <==> name in FailedNames(Run(allowed, rs).statuses) {
      StatusesAreLatest(allowed, rs, name);
    }
    assert failed == FailedNames(Run(allowed, rs).statuses);
    if rs == [] {
      assert failed == {};
    }
  }

  /** The Lost and Regained logs alternate, starting with Lost, and the last one tells whether
      redundancy is full. */
  lemma {:induction false} LogsAlternate(allowed: nat, rs: seq<Report>)
    ensures var s := Run(allowed, rs);
      && (forall i :: 0 <= i < |s.logs| ==> s.logs[i] == if i % 2 == 0 then Lost else Regained)
      && (s.state == Full <==> |s.logs| % 2 == 0)
  {
    if rs != [] { LogsAlternate(allowed, rs[..|rs| - 1]); }
  }
}
