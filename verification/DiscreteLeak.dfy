/** The leak shutdown protocol of src/DiscreteLeakDetectSensor.cpp. */
module DiscreteLeak {
  import opened Basics

  datatype LeakLevel = Normal | Leakage
  datatype Transition = HostOff | ChassisOff

  /** Completion codes of a timer wait. */
  datatype Completion = Success | Aborted | Failed

  /** A wait is running until it completes; then its handler is queued with the outcome. */
  datatype Phase = Running | Queued(ec: Completion)

  /** A shutdown handler the event loop still owes a call, with the generation it captured. */
  datatype Handler = Handler(gen: nat, deadline: int, phase: Phase)

  /** What `GetAll` returned for the two properties the shutdown depends on. */
  datatype DelayField = Missing | Invalid | Value(d: Double)
  datatype PolicyMap = PolicyMap(critical: Option<string>, delay: DelayField)

  /** `issued` records the power transitions requested so far. */
  datatype Leak = Leak(
    level: LeakLevel, gen: nat, started: bool, handlers: seq<Handler>, path: Option<string>,
    loaded: bool, critical: string, delay: Double, issued: seq<Transition>)

  const GENERATIONS := 0x1_0000_0000_0000_0000
  const UINT_MAX := 0xFFFF_FFFF

  // ----- Specification -----

  /** `criticalReactionTriggersShutdown` */
  predicate Triggers(s: Leak) {
    s.loaded && s.critical != "None"
  }

  /** `effectiveShutdownDelaySeconds`: NaN stands for every non-finite delay. */
  function EffectiveDelay(s: Leak): (d: nat)
    ensures d <= UINT_MAX
  {
    if !s.loaded || s.delay.NaN? || s.delay.val < 0.0 then 0
    else if s.delay.val >= UINT_MAX as real then UINT_MAX
    else s.delay.val.Floor
  }

  function NextGen(gen: nat): nat {
    (gen + 1) % GENERATIONS
  }

  /** `steady_timer::cancel`: a running wait completes as aborted; a handler that is already
      queued keeps its outcome. */
  function AbortWaits(hs: seq<Handler>): (r: seq<Handler>)
    ensures |r| == |hs|
    ensures forall i :: 0 <= i < |r| ==>
      r[i] == if hs[i].phase.Running? then hs[i].(phase := Queued(Aborted)) else hs[i]
  {
    seq(|hs|, i requires 0 <= i < |hs| =>
      if hs[i].phase.Running? then hs[i].(phase := Queued(Aborted)) else hs[i])
  }

  function Cancel(s: Leak): Leak {
    s.(handlers := AbortWaits(s.handlers), gen := NextGen(s.gen), started := false)
  }

  function Execute(s: Leak): Leak {
    if !Triggers(s) then s
    else s.(issued := s.issued + [if s.critical == "GracefulShutdown" then HostOff else ChassisOff])
  }

  function StartShutdown(s: Leak, now: int): Leak {
    if !Triggers(s) then s
    else
      var bumped := s.(handlers := AbortWaits(s.handlers), gen := NextGen(s.gen));
      if EffectiveDelay(s) != 0
      then bumped.(started := true,
                   handlers := bumped.handlers + [Handler(bumped.gen, now + EffectiveDelay(s), Running)])
      else Execute(bumped.(started := false))
  }

  function Poll(s: Leak, leakVal: int, now: int): Leak {
    var s' := s.(level := if leakVal == 1 then Normal else Leakage);
    if s'.level == s.level then s'
    else if s'.level == Normal then Cancel(s')
    else if Triggers(s') then StartShutdown(s', now)
    else s'
  }

  function Bind(s: Leak, path: string): Leak {
    Cancel(s).(path := Some(path), loaded := false)
  }

  function WithPolicy(s: Leak, m: PolicyMap): Leak {
    s.(critical := if m.critical.Some? then m.critical.value else s.critical,
       delay := match m.delay case Missing => s.delay case Invalid => Num(0.0) case Value(d) => d,
       loaded := true)
  }

  function ApplyPolicy(s: Leak, m: PolicyMap, now: int): Leak {
    var s' := WithPolicy(s, m);
    if s'.level == Leakage && Triggers(s') then StartShutdown(s', now) else Cancel(s')
  }

  /** The wait of handler `i` completes by itself. */
  function Expire(s: Leak, i: nat, ec: Completion): Leak
    requires i < |s.handlers|
  {
    s.(handlers := s.handlers[i := s.handlers[i].(phase := Queued(ec))])
  }

  /** The queued handler `i` runs. */
  function Fire(s: Leak, i: nat): Leak
    requires i < |s.handlers| && s.handlers[i].phase.Queued?
  {
    var s' := s.(handlers := s.handlers[..i] + s.handlers[i + 1..]);
    if s.handlers[i].gen != s.gen then s'
    else if s.handlers[i].phase.ec == Success then Execute(s'.(started := false))
    else s'.(started := false)
  }

  // ----- The source's own form -----

  class DiscreteLeakDetectSensor {
    var leakLevel: LeakLevel
    var shutdownTimerGeneration: nat
    var startedShutdownTimer: bool
    var handlers: seq<Handler>
    var leakPolicyPath: Option<string>
    var leakPolicyPropsLoaded: bool
    var criticalReactionType: string
    var policyReactionDelaySeconds: Double
    var issued: seq<Transition>

    ghost function State(): Leak reads this {
      Leak(leakLevel, shutdownTimerGeneration, startedShutdownTimer, handlers, leakPolicyPath,
           leakPolicyPropsLoaded, criticalReactionType, policyReactionDelaySeconds, issued)
    }

    constructor ()
      ensures State() == Leak(Normal, 0, false, [], None, false, "None", Num(0.0), [])
    {
      leakLevel, shutdownTimerGeneration, startedShutdownTimer, handlers := Normal, 0, false, [];
      leakPolicyPath, leakPolicyPropsLoaded := None, false;
      criticalReactionType, policyReactionDelaySeconds, issued := "None", Num(0.0), [];
    }

    predicate CriticalReactionTriggersShutdown()
      reads this
      ensures CriticalReactionTriggersShutdown() <==> Triggers(State())
    {
      leakPolicyPropsLoaded && criticalReactionType != "None"
    }

    method EffectiveShutdownDelaySeconds() returns (d: nat)
      ensures d == EffectiveDelay(State())
    {
      if !leakPolicyPropsLoaded {
        return 0;
      }
      if policyReactionDelaySeconds.NaN? || policyReactionDelaySeconds.val < 0.0 {
        return 0;
      }
      if policyReactionDelaySeconds.val >= UINT_MAX as real {
        return UINT_MAX;
      }
      return policyReactionDelaySeconds.val.Floor;
    }

    /** `shutdownTimer.cancel()` does not take back a handler that is already queued, so no
        handler leaves the list here. */
    method CancelTimer()
      modifies this`handlers
      ensures handlers == AbortWaits(old(handlers))
    {
      for i := 0 to |handlers|
        invariant |handlers| == |old(handlers)|
        invariant forall j :: 0 <= j < |handlers| ==>
          handlers[j] == if j < i then AbortWaits(old(handlers))[j] else old(handlers)[j]
      {
        if handlers[i].phase.Running? {
          handlers := handlers[i := handlers[i].(phase := Queued(Aborted))];
        }
      }
    }

    method CancelPendingShutdown()
      modifies this
      ensures State() == Cancel(old(State()))
    {
      CancelTimer();
      shutdownTimerGeneration := (shutdownTimerGeneration + 1) % GENERATIONS;
      startedShutdownTimer := false;
    }

    method ExecuteShutdown()
      modifies this
      ensures State() == Execute(old(State()))
    {
      if !CriticalReactionTriggersShutdown() {
        return;
      }
      if leakPolicyPropsLoaded && criticalReactionType == "GracefulShutdown" {
        issued := issued + [HostOff];
      } else {
        issued := issued + [ChassisOff];
      }
    }

    method BeginShutdown(now: int)
      modifies this
      ensures State() == StartShutdown(old(State()), now)
    {
      if !CriticalReactionTriggersShutdown() {
        return;
      }
      CancelTimer();
      shutdownTimerGeneration := (shutdownTimerGeneration + 1) % GENERATIONS;
      var gen := shutdownTimerGeneration;
      var delaySec := EffectiveShutdownDelaySeconds();
      if delaySec != 0 {
        startedShutdownTimer := true;
        handlers := handlers + [Handler(gen, now + delaySec, Running)];
      } else {
        startedShutdownTimer := false;
        if gen == shutdownTimerGeneration {
          ExecuteShutdown();
        }
      }
    }

    method GetLeakInfo(leakVal: int, now: int)
      modifies this
      ensures State() == Poll(old(State()), leakVal, now)
    {
      var oldLeakLevel := leakLevel;
      leakLevel := if leakVal == 1 then Normal else Leakage;
      if oldLeakLevel != leakLevel {
        if leakLevel == Normal {
          CancelPendingShutdown();
        } else if leakLevel == Leakage && CriticalReactionTriggersShutdown() {
          BeginShutdown(now);
        }
      }
    }

    method BindLeakPolicy(path: string)
      modifies this
      ensures State() == Bind(old(State()), path)
    {
      CancelPendingShutdown();
      leakPolicyPath := Some(path);
      leakPolicyPropsLoaded := false;
    }

    method ApplyPolicyConfigMap(m: PolicyMap, now: int)
      modifies this
      ensures State() == ApplyPolicy(old(State()), m, now)
    {
      if m.critical.Some? {
        criticalReactionType := m.critical.value;
      }
      match m.delay {
        case Missing =>
        case Invalid => policyReactionDelaySeconds := Num(0.0);
        case Value(d) => policyReactionDelaySeconds := d;
      }
      leakPolicyPropsLoaded := true;
      if leakLevel == Leakage && CriticalReactionTriggersShutdown() {
        BeginShutdown(now);
      } else {
        CancelPendingShutdown();
      }
    }

    /** The shutdown timer's handler `i`, called by the event loop. */
    method OnShutdownTimer(i: nat)
      requires i < |handlers| && handlers[i].phase.Queued?
      modifies this
      ensures State() == Fire(old(State()), i)
    {
      var gen, ec := handlers[i].gen, handlers[i].phase.ec;
      handlers := handlers[..i] + handlers[i + 1..];
      if gen != shutdownTimerGeneration {
        return;
      }
      startedShutdownTimer := false;
      if ec == Success {
        ExecuteShutdown();
      }
    }
  }

  /** One row of the mapper's answer: an object path and the services that implement it. */
  datatype Row = Row(path: string, services: seq<string>)

  /** `leakPolicyScanIndex`: rows without a service are skipped, the others are asked for their
      `LeakDetectorName` in turn (`replies[i]` is None on an error or a value of another type).
      The first row that answers with this detector's name is bound, and no other. */
  method LeakPolicyScan(rows: seq<Row>, replies: seq<Option<string>>, name: string) returns (bound: Option<nat>)
    requires |replies| == |rows|
    ensures bound.Some? ==>
      && bound.value < |rows|
      && rows[bound.value].services != [] && replies[bound.value] == Some(name)
      && forall j :: 0 <= j < bound.value ==> rows[j].services == [] || replies[j] != Some(name)
    ensures bound.None? ==> forall j :: 0 <= j < |rows| ==> rows[j].services == [] || replies[j] != Some(name)
  {
    var i := 0;
    while true
      invariant i <= |rows|
      invariant forall j :: 0 <= j < i ==> rows[j].services == [] || replies[j] != Some(name)
      decreases |rows| - i
    {
      while i < |rows| && rows[i].services == []
        invariant i <= |rows|
        invariant forall j :: 0 <= j < i ==> rows[j].services == [] || replies[j] != Some(name)
      {
        i := i + 1;
      }
      if i >= |rows| {
        return None;
      }
      if replies[i] == Some(name) {
        return Some(i);
      }
      i := i + 1;
    }
  }
}
