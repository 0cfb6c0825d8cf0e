/** Safety of the leak shutdown protocol over every interleaving of polls, policy replies,
    re-binds, timer completions and timer handlers. */
module LeakShutdownSafety {
  import opened Basics
  import opened DiscreteLeak

  datatype Event =
    | Polled(leakVal: int, at: int)
    | Bound(path: string, at: int)
    | PolicyReply(m: PolicyMap, at: int)
    | TimerExpires(i: nat, ec: Completion, at: int)
    | TimerHandler(i: nat, at: int)

  /** The sensor with the time, how often the generation has advanced in all (the 64-bit
      generation is this number modulo 2^64), and that number at the birth of each handler. */
  datatype System = System(leak: Leak, clock: int, epoch: nat, births: seq<nat>)

  const INITIAL := Leak(Normal, 0, false, [], None, false, "None", Num(0.0), [])

  function Start(clock: int): System {
    System(INITIAL, clock, 0, [])
  }

  /** Time does not run backwards. A running wait succeeds only at or after its deadline, may
      fail at any time, and is aborted by `cancel` alone; only a queued handler runs. */
  predicate Enabled(s: System, ev: Event) {
    && s.clock <= ev.at
    && match ev
       case TimerExpires(i, ec, at) =>
         && i < |s.leak.handlers| && s.leak.handlers[i].phase.Running?
         && ec != Aborted && (ec == Success ==> s.leak.handlers[i].deadline <= at)
       case TimerHandler(i, _) => i < |s.leak.handlers| && s.leak.handlers[i].phase.Queued?
       case _ => true
  }

  function Next(s: Leak, ev: Event): Leak
    requires ev.TimerExpires? || ev.TimerHandler? ==> ev.i < |s.handlers|
    requires ev.TimerHandler? ==> s.handlers[ev.i].phase.Queued?
  {
    match ev
    case Polled(leakVal, at) => Poll(s, leakVal, at)
    case Bound(path, _) => Bind(s, path)
    case PolicyReply(m, at) => ApplyPolicy(s, m, at)
    case TimerExpires(i, ec, _) => Expire(s, i, ec)
    case TimerHandler(i, _) => Fire(s, i)
  }

  function Step(s: System, ev: Event): System {
    if !Enabled(s, ev) then s
    else
      var leak := Next(s.leak, ev);
      var epoch := s.epoch + if leak.gen != s.leak.gen then 1 else 0;
      System(leak, ev.at, epoch,
        if ev.TimerHandler? then s.births[..Min(ev.i, |s.births|)] + s.births[Min(ev.i + 1, |s.births|)..]
        else if |leak.handlers| > |s.leak.handlers| then s.births + [epoch]
        else s.births)
  }

  function Min(a: nat, b: nat): nat { if a < b then a else b }

  function Run(clock: int, es: seq<Event>): System {
    if es == [] then Start(clock) else Step(Run(clock, es[..|es| - 1]), es[|es| - 1])
  }

  /** The steps that arm a shutdown, delayed or immediate. */
  predicate Arms(s: System, ev: Event) {
    && Enabled(s, ev)
    && match ev
       case Polled(leakVal, _) => s.leak.level == Normal && leakVal != 1 && Triggers(s.leak)
       case PolicyReply(m, _) => s.leak.level == Leakage && Triggers(WithPolicy(s.leak, m))
       case _ => false
  }

  function Armings(clock: int, es: seq<Event>): nat {
    if es == [] then 0
    else Armings(clock, es[..|es| - 1]) + if Arms(Run(clock, es[..|es| - 1]), es[|es| - 1]) then 1 else 0
  }

  /** The state asks for a shutdown right now. */
  predicate Demanded(s: Leak) {
    s.level == Leakage && Triggers(s)
  }

  ghost predicate Current(s: Leak, i: nat) {
    i < |s.handlers| && s.handlers[i].gen == s.gen
  }

  /** At most one handler carries the current generation; one does exactly while the timer
      counts as started, and then a shutdown is demanded. */
  ghost predicate Safe(s: Leak) {
    && (forall i, j :: Current(s, i) && Current(s, j) ==> i == j)
    && (s.started <==> exists i :: Current(s, i))
    && (s.started ==> Demanded(s))
  }

  /** Some outstanding handler is older than the epoch by a positive multiple of 2^64. */
  ghost predicate Lags(s: System) {
    exists i :: 0 <= i < |s.births| && s.births[i] < s.epoch && Gen(s.births[i]) == Gen(s.epoch)
  }

  /** The 64-bit generation after `n` advances. */
  function Gen(n: nat): nat {
    n % GENERATIONS
  }

  /** What holds in every state of every run, however long. */
  ghost predicate Consistent(s: System) {
    && s.leak.gen == Gen(s.epoch) && BirthsOk(s.leak.handlers, s.births, s.epoch)
    && SuccessInTime(s.leak.handlers, s.clock)
  }

  /** Every handler carries the generation of its birth, and they are born one after the other. */
  ghost predicate BirthsOk(hs: seq<Handler>, births: seq<nat>, epoch: nat) {
    && |births| == |hs|
    && (forall i :: 0 <= i < |hs| ==> hs[i].gen == Gen(births[i]) && births[i] <= epoch)
    && (forall i, j :: 0 <= i < j < |hs| ==> births[i] < births[j])
  }

  // ----- One step -----

  lemma NextGenOfCount(n: nat)
    ensures NextGen(Gen(n)) == Gen(n + 1) && Gen(n + 1) != Gen(n)
  {
  }

  /** Without a lagging handler, the current generation means the current epoch. */
  lemma CurrentIsBorn(s: System, i: nat)
    requires Consistent(s) && !Lags(s)
    ensures Current(s.leak, i) <==> i < |s.births| && s.births[i] == s.epoch
  {
  }

  /** The shapes a step can have. */
  datatype Shape = Quiet | Bumps | BumpsAndStarts(deadline: int) | Removes(i: nat)

  predicate HasShape(s: System, s': System, shape: Shape) {
    var (hs, hs') := (s.leak.handlers, s'.leak.handlers);
    match shape
    case Quiet =>
      && s'.leak.gen == s.leak.gen && s'.epoch == s.epoch && s'.births == s.births && |hs'| == |hs|
      && s'.leak.started == s.leak.started && (Demanded(s.leak) ==> Demanded(s'.leak))
      && forall i :: 0 <= i < |hs| ==> hs'[i].gen == hs[i].gen && hs'[i].deadline == hs[i].deadline
    case Bumps =>
      && s'.leak.gen == NextGen(s.leak.gen) && s'.epoch == s.epoch + 1 && s'.births == s.births
      && hs' == AbortWaits(hs) && !s'.leak.started
    case BumpsAndStarts(deadline) =>
      && s'.leak.gen == NextGen(s.leak.gen) && s'.epoch == s.epoch + 1 && s'.births == s.births + [s'.epoch]
      && hs' == AbortWaits(hs) + [Handler(s'.leak.gen, deadline, Running)]
      && s'.leak.started && Demanded(s'.leak)
    case Removes(i) =>
      && i < |hs| && i < |s.births|
      && s'.leak.gen == s.leak.gen && s'.epoch == s.epoch
      && s'.births == s.births[..i] + s.births[i + 1..] && hs' == hs[..i] + hs[i + 1..]
      && s'.leak.level == s.leak.level && Triggers(s'.leak) == Triggers(s.leak)
      && s'.leak.started == (s.leak.started && hs[i].gen != s.leak.gen)
  }

  lemma NextGenDiffers(gen: nat)
    ensures NextGen(gen) != gen || gen >= GENERATIONS
  {
  }

  /** Advancing the generation from `s`, arming a timer if a delayed shutdown is demanded. */
  function ArmShape(s: Leak, at: int): Shape {
    if Demanded(s) && EffectiveDelay(s) != 0 then BumpsAndStarts(at + EffectiveDelay(s)) else Bumps
  }

  function ShapeOf(s: Leak, ev: Event): Shape {
    match ev
    case Polled(leakVal, at) =>
      var s1 := s.(level := if leakVal == 1 then Normal else Leakage);
      if s1.level == s.level || (s1.level == Leakage && !Triggers(s1)) then Quiet else ArmShape(s1, at)
    case Bound(_, _) => Bumps
    case PolicyReply(m, at) => ArmShape(WithPolicy(s, m), at)
    case TimerExpires(_, _, _) => Quiet
    case TimerHandler(i, _) => Removes(i)
  }

  lemma PollShape(s: System, ev: Event)
    requires Consistent(s) && Enabled(s, ev) && ev.Polled?
    ensures HasShape(s, Step(s, ev), ShapeOf(s.leak, ev))
  {
    NextGenDiffers(s.leak.gen);
  }

  lemma ReplyShape(s: System, ev: Event)
    requires Consistent(s) && Enabled(s, ev) && ev.PolicyReply?
    ensures HasShape(s, Step(s, ev), ShapeOf(s.leak, ev))
  {
    NextGenDiffers(s.leak.gen);
    var loaded := WithPolicy(s.leak, ev.m);
    assert loaded.handlers == s.leak.handlers && loaded.gen == s.leak.gen;
    assert Next(s.leak, ev) == if Demanded(loaded) then StartShutdown(loaded, ev.at) else Cancel(loaded);
  }

  lemma ExpiryShape(s: System, ev: Event)
    requires Consistent(s) && Enabled(s, ev) && ev.TimerExpires?
    ensures HasShape(s, Step(s, ev), Quiet)
  {
  }

  lemma HandlerShape(s: System, ev: Event)
    requires Consistent(s) && Enabled(s, ev) && ev.TimerHandler?
    ensures HasShape(s, Step(s, ev), Removes(ev.i))
  {
    assert ev.i < |s.births|;
  }

  lemma StepShape(s: System, ev: Event)
    requires Consistent(s) && Enabled(s, ev)
    ensures HasShape(s, Step(s, ev), ShapeOf(s.leak, ev))
  {
    match ev
    case Polled(_, _) => PollShape(s, ev);
    case Bound(_, _) => NextGenDiffers(s.leak.gen);
    case PolicyReply(_, _) => ReplyShape(s, ev);
    case TimerExpires(_, _, _) => ExpiryShape(s, ev);
    case TimerHandler(_, _) => HandlerShape(s, ev);
  }

  /** Only a step that arms starts the timer, with a deadline after the effective delay. */
  lemma StartsByArming(s: System, ev: Event)
    requires Enabled(s, ev)
    ensures ShapeOf(s.leak, ev).BumpsAndStarts? ==>
      Arms(s, ev) && ShapeOf(s.leak, ev).deadline == ev.at + EffectiveDelay(Step(s, ev).leak)
  {
  }

  predicate SuccessInTime(hs: seq<Handler>, clock: int) {
    forall i :: 0 <= i < |hs| && hs[i].phase == Queued(Success) ==> hs[i].deadline <= clock
  }

  lemma QuietInTime(s: System, ev: Event)
    requires Consistent(s) && Enabled(s, ev) && (ev.Polled? || ev.TimerExpires?) && ShapeOf(s.leak, ev).Quiet?
    ensures SuccessInTime(Step(s, ev).leak.handlers, ev.at)
  {
  }

  lemma ShapeInTime(s: System, s': System, shape: Shape)
    requires Consistent(s) && HasShape(s, s', shape) && !shape.Quiet? && s.clock <= s'.clock
    ensures SuccessInTime(s'.leak.handlers, s'.clock)
  {
    var hs, hs' := s.leak.handlers, s'.leak.handlers;
    assert SuccessInTime(AbortWaits(hs), s'.clock);
    if shape.Removes? {
      assert forall j :: 0 <= j < |hs'| ==> hs'[j] == hs[if j < shape.i then j else j + 1];
    }
  }

  lemma QueuedInTime(s: System, ev: Event)
    requires Consistent(s) && Enabled(s, ev)
    ensures SuccessInTime(Step(s, ev).leak.handlers, Step(s, ev).clock)
  {
    if ShapeOf(s.leak, ev).Quiet? {
      QuietInTime(s, ev);
    } else {
      StepShape(s, ev);
      ShapeInTime(s, Step(s, ev), ShapeOf(s.leak, ev));
    }
  }

  lemma BumpKeepsConsistent(s: System, s': System, shape: Shape)
    requires Consistent(s) && HasShape(s, s', shape) && (shape.Bumps? || shape.BumpsAndStarts?)
    requires SuccessInTime(s'.leak.handlers, s'.clock)
    ensures Consistent(s')
  {
    NextGenOfCount(s.epoch);
  }

  lemma RemovalKeepsBirths(hs: seq<Handler>, births: seq<nat>, epoch: nat, i: nat)
    requires BirthsOk(hs, births, epoch) && i < |hs|
    ensures BirthsOk(hs[..i] + hs[i + 1..], births[..i] + births[i + 1..], epoch)
  {
    var hs', births' := hs[..i] + hs[i + 1..], births[..i] + births[i + 1..];
    forall j | 0 <= j < |hs'|
      ensures var k := if j < i then j else j + 1; hs'[j] == hs[k] && births'[j] == births[k]
    {}
  }

  lemma RemovalKeepsConsistent(s: System, s': System, i: nat)
    requires Consistent(s) && HasShape(s, s', Removes(i)) && SuccessInTime(s'.leak.handlers, s'.clock)
    ensures Consistent(s')
  {
    RemovalKeepsBirths(s.leak.handlers, s.births, s.epoch, i);
  }

  lemma ShapeKeepsConsistent(s: System, s': System, shape: Shape)
    requires Consistent(s) && HasShape(s, s', shape) && SuccessInTime(s'.leak.handlers, s'.clock)
    ensures Consistent(s')
  {
    match shape
    case Quiet =>
    case Removes(i) => RemovalKeepsConsistent(s, s', i);
    case _ => BumpKeepsConsistent(s, s', shape);
  }

  /** An advance ends every earlier claim to the current generation, unless a handler lags. */
  lemma BumpIsSafeUnlessLagging(s: System, s': System, shape: Shape)
    requires Consistent(s) && Consistent(s') && HasShape(s, s', shape) && (shape.Bumps? || shape.BumpsAndStarts?)
    ensures Safe(s'.leak) <==> !Lags(s')
  {
    var n := |s.births|;
    if shape.BumpsAndStarts? { assert Current(s'.leak, n); }
    if Lags(s') {
      var i :| 0 <= i < |s'.births| && s'.births[i] < s'.epoch && Gen(s'.births[i]) == Gen(s'.epoch);
      assert Current(s'.leak, i);
    } else {
      forall i: nat | Current(s'.leak, i) ensures shape.BumpsAndStarts? && i == n {
        CurrentIsBorn(s', i);
      }
    }
  }

  lemma QuietKeepsSafe(s: System, s': System)
    requires Consistent(s) && Safe(s.leak) && !Lags(s) && HasShape(s, s', Quiet)
    ensures Safe(s'.leak) && !Lags(s')
  {
    forall i: nat ensures Current(s'.leak, i) <==> Current(s.leak, i) {}
    if s.leak.started {
      var i: nat :| Current(s.leak, i);
      assert Current(s'.leak, i);
    }
  }

  lemma OthersStay(s: System, s': System, i: nat, k: nat)
    requires Consistent(s) && HasShape(s, s', Removes(i)) && k != i
    ensures Current(s.leak, k) <==> Current(s'.leak, if k < i then k else k - 1)
  {
  }

  lemma RemovalKeepsSafe(s: System, s': System, i: nat)
    requires Consistent(s) && Safe(s.leak) && !Lags(s) && HasShape(s, s', Removes(i))
    ensures Safe(s'.leak) && !Lags(s')
  {
    forall j: nat | j < |s'.births| ensures s'.births[j] == s.births[if j < i then j else j + 1] {}
    forall j: nat ensures Current(s'.leak, j) <==> Current(s.leak, if j < i then j else j + 1) {
      OthersStay(s, s', i, if j < i then j else j + 1);
    }
    if s.leak.started {
      var k: nat :| Current(s.leak, k);
      if k != i { OthersStay(s, s', i, k); }
    }
  }

  /** From a safe state without a lagging handler, a step leads to a safe state exactly when it
      leads to one without a lagging handler. */
  lemma StepIsSafeUnlessLagging(s: System, ev: Event)
    requires Consistent(s) && Safe(s.leak) && !Lags(s)
    ensures Safe(Step(s, ev).leak) <==> !Lags(Step(s, ev))
  {
    if Enabled(s, ev) {
      var s' := Step(s, ev);
      var shape := ShapeOf(s.leak, ev);
      StepShape(s, ev);
      match shape
      case Quiet => QuietKeepsSafe(s, s');
      case Removes(i) => RemovalKeepsSafe(s, s', i);
      case _ =>
        QueuedInTime(s, ev);
        ShapeKeepsConsistent(s, s', shape);
        BumpIsSafeUnlessLagging(s, s', shape);
    }
  }

  // ----- Whole runs -----

  lemma {:induction false} AlwaysConsistent(clock: int, es: seq<Event>)
    ensures Consistent(Run(clock, es)) && Run(clock, es).epoch <= |es|
  {
    if es != [] {
      var s, ev := Run(clock, es[..|es| - 1]), es[|es| - 1];
      AlwaysConsistent(clock, es[..|es| - 1]);
      if Enabled(s, ev) {
        StepShape(s, ev);
        QueuedInTime(s, ev);
        ShapeKeepsConsistent(s, Step(s, ev), ShapeOf(s.leak, ev));
      }
    }
  }

  /** No state of the run, its end included, has a lagging handler. */
  ghost predicate NeverLags(clock: int, es: seq<Event>) {
    !Lags(Run(clock, es)) && (es == [] || NeverLags(clock, es[..|es| - 1]))
  }

  ghost predicate SafeThroughout(clock: int, es: seq<Event>) {
    Safe(Run(clock, es).leak) && (es == [] || SafeThroughout(clock, es[..|es| - 1]))
  }

  /** A run is safe in every state exactly when no handler ever lags the generation by a positive
      multiple of 2^64. */
  lemma {:induction false} SafeUnlessLagging(clock: int, es: seq<Event>)
    ensures SafeThroughout(clock, es) <==> NeverLags(clock, es)
  {
    if es != [] {
      var init := es[..|es| - 1];
      SafeUnlessLagging(clock, init);
      if NeverLags(clock, init) {
        AlwaysConsistent(clock, init);
        StepIsSafeUnlessLagging(Run(clock, init), es[|es| - 1]);
      }
    }
  }

  lemma NoLagYet(s: System)
    requires Consistent(s) && s.epoch < GENERATIONS
    ensures !Lags(s)
  {
    forall i | 0 <= i < |s.births| ensures Gen(s.births[i]) == s.births[i] && Gen(s.epoch) == s.epoch {
      assert s.births[i] <= s.epoch;
    }
  }

  /** The generation must advance 2^64 times before a handler can lag. */
  lemma {:induction false} ShortRunsNeverLag(clock: int, es: seq<Event>)
    requires |es| < GENERATIONS
    ensures NeverLags(clock, es)
  {
    AlwaysConsistent(clock, es);
    NoLagYet(Run(clock, es));
    if es != [] { ShortRunsNeverLag(clock, es[..|es| - 1]); }
  }

  /** Every run of fewer than 2^64 steps is safe in every state. */
  lemma AlwaysSafe(clock: int, es: seq<Event>)
    requires |es| < GENERATIONS
    ensures SafeThroughout(clock, es)
  {
    ShortRunsNeverLag(clock, es);
    SafeUnlessLagging(clock, es);
  }

  lemma SafeAtEnd(clock: int, es: seq<Event>)
    requires NeverLags(clock, es)
    ensures Safe(Run(clock, es).leak) && !Lags(Run(clock, es)) && Consistent(Run(clock, es))
  {
    SafeUnlessLagging(clock, es);
    AlwaysConsistent(clock, es);
  }

  function RequestOf(s: Leak): Transition {
    if s.critical == "GracefulShutdown" then HostOff else ChassisOff
  }

  /** What a step that requests a transition looks like. */
  predicate Shuts(s: System, ev: Event, s': System) {
    && Demanded(s'.leak) && !s'.leak.started
    && s'.leak.issued == s.leak.issued + [RequestOf(s'.leak)]
    && (|| (Arms(s, ev) && EffectiveDelay(s'.leak) == 0)
        || (&& ev.TimerHandler? && ev.i < |s.leak.handlers| && s.leak.started
            && s.leak.handlers[ev.i].gen == s.leak.gen && s.leak.handlers[ev.i].phase == Queued(Success)
            && s.leak.handlers[ev.i].deadline <= ev.at))
  }

  lemma StepShuts(s: System, ev: Event)
    requires Safe(s.leak) && Consistent(s)
    ensures var s' := Step(s, ev);
      && (s'.leak.issued == s.leak.issued || Shuts(s, ev, s'))
      && |s'.leak.issued| + (if s'.leak.started then 1 else 0) <=
         |s.leak.issued| + (if s.leak.started then 1 else 0) + (if Arms(s, ev) then 1 else 0)
  {
    if Enabled(s, ev) && ev.TimerHandler? && s.leak.handlers[ev.i].gen == s.leak.gen {
      assert Current(s.leak, ev.i);
    }
  }

  /** Every transition requested in a run is requested with a leak present and a loaded policy
      that asks for it, by an arming without delay or by the timer's current handler after its
      deadline; the policy's reaction type decides which transition. */
  lemma ShutdownsAreDemanded(clock: int, es: seq<Event>, ev: Event)
    requires NeverLags(clock, es)
    ensures var s' := Step(Run(clock, es), ev);
      s'.leak.issued == Run(clock, es).leak.issued || Shuts(Run(clock, es), ev, s')
  {
    SafeAtEnd(clock, es);
    StepShuts(Run(clock, es), ev);
  }

  /** A handler of the current epoch is there only while a shutdown is demanded. */
  ghost predicate BornDemanded(s: System) {
    forall i :: 0 <= i < |s.births| && s.births[i] == s.epoch ==> Demanded(s.leak)
  }

  lemma ShapeKeepsBornDemanded(s: System, s': System, shape: Shape)
    requires Consistent(s) && HasShape(s, s', shape) && BornDemanded(s)
    ensures BornDemanded(s')
  {
    if shape.Removes? {
      assert forall j :: 0 <= j < |s'.births| ==> s'.births[j] == s.births[if j < shape.i then j else j + 1];
    }
  }

  lemma {:induction false} AlwaysBornDemanded(clock: int, es: seq<Event>)
    ensures BornDemanded(Run(clock, es))
  {
    if es != [] {
      var s, ev := Run(clock, es[..|es| - 1]), es[|es| - 1];
      AlwaysBornDemanded(clock, es[..|es| - 1]);
      AlwaysConsistent(clock, es[..|es| - 1]);
      if Enabled(s, ev) {
        StepShape(s, ev);
        ShapeKeepsBornDemanded(s, Step(s, ev), ShapeOf(s.leak, ev));
      }
    }
  }

  /** The step runs a lagging handler that succeeded, while there is no leak and the policy asks for
      a shutdown if there were one. */
  predicate RunsLagging(s: System, ev: Event) {
    && Enabled(s, ev) && ev.TimerHandler? && ev.i < |s.births|
    && s.leak.handlers[ev.i].phase == Queued(Success)
    && s.births[ev.i] < s.epoch && Gen(s.births[ev.i]) == Gen(s.epoch)
    && s.leak.level == Normal && Triggers(s.leak)
  }

  lemma StepIssues(s: System, ev: Event)
    requires Consistent(s) && BornDemanded(s)
    ensures Step(s, ev).leak.issued != s.leak.issued && !Demanded(Step(s, ev).leak) <==> RunsLagging(s, ev)
  {
    if Enabled(s, ev) && ev.TimerHandler? {
      assert s.births[ev.i] <= s.epoch && s.leak.handlers[ev.i].gen == Gen(s.births[ev.i]);
    }
  }

  /** In any run of any length, a transition that no leak demands is requested exactly when a
      lagging handler that succeeded runs without a leak while the policy triggers. */
  lemma UndemandedIffLagging(clock: int, es: seq<Event>, ev: Event)
    ensures var s, s' := Run(clock, es), Step(Run(clock, es), ev);
      s'.leak.issued != s.leak.issued && !Demanded(s'.leak) <==> RunsLagging(s, ev)
  {
    AlwaysConsistent(clock, es);
    AlwaysBornDemanded(clock, es);
    StepIssues(Run(clock, es), ev);
  }

  /** Each arming issues at most one shutdown: what was issued and what is still pending never
      exceeds the armings so far. */
  lemma {:induction false} OneShutdownPerArming(clock: int, es: seq<Event>)
    requires NeverLags(clock, es)
    ensures |Run(clock, es).leak.issued| + (if Run(clock, es).leak.started then 1 else 0) <= Armings(clock, es)
  {
    if es != [] {
      var init := es[..|es| - 1];
      OneShutdownPerArming(clock, init);
      SafeAtEnd(clock, init);
      StepShuts(Run(clock, init), es[|es| - 1]);
    }
  }

  // ----- A timed shutdown has seen an uninterrupted leak -----

  /** Step `m` armed the timer that is pending after `es`, with deadline `deadline`, and ever
      since a shutdown was demanded and the timer counted as started. */
  ghost predicate PendingSince(clock: int, es: seq<Event>, m: nat, deadline: int) {
    && m < |es| && Arms(Run(clock, es[..m]), es[m])
    && deadline == es[m].at + EffectiveDelay(Run(clock, es[..m + 1]).leak)
    && forall k :: m < k <= |es| ==> Demanded(Run(clock, es[..k]).leak) && Run(clock, es[..k]).leak.started
  }

  /** Where the current handler of a started timer was before a step that did not start it. */
  lemma HandlerBefore(s: System, s': System, shape: Shape, i: nat) returns (j: nat)
    requires Consistent(s) && Safe(s.leak) && HasShape(s, s', shape) && !shape.BumpsAndStarts?
    requires s'.leak.started && Current(s'.leak, i)
    ensures s.leak.started && Current(s.leak, j)
    ensures s'.leak.handlers[i].deadline == s.leak.handlers[j].deadline
  {
    j := if shape.Removes? && i >= shape.i then i + 1 else i;
  }

  /** A step that starts the timer makes its own handler the current one. */
  lemma HandlerStarted(s: System, s': System, shape: Shape, i: nat)
    requires HasShape(s, s', shape) && shape.BumpsAndStarts? && Safe(s'.leak) && Current(s'.leak, i)
    ensures s'.leak.handlers[i].deadline == shape.deadline
  {
    assert Current(s'.leak, |s.leak.handlers|);
  }

  /** A step after which the timer is started either started it, or kept the handler it had. */
  lemma PendingAfter(s: System, ev: Event, i: nat) returns (j: nat)
    requires Consistent(s) && Safe(s.leak) && Safe(Step(s, ev).leak)
    requires Step(s, ev).leak.started && Current(Step(s, ev).leak, i)
    ensures var (h, armed) := (Step(s, ev).leak.handlers[i], Enabled(s, ev) && ShapeOf(s.leak, ev).BumpsAndStarts?);
      && (armed ==> h.deadline == ev.at + EffectiveDelay(Step(s, ev).leak) && Arms(s, ev))
      && (!armed ==> s.leak.started && Current(s.leak, j) && h.deadline == s.leak.handlers[j].deadline)
  {
    j := i;
    if Enabled(s, ev) {
      StepShape(s, ev);
      if ShapeOf(s.leak, ev).BumpsAndStarts? {
        StartsByArming(s, ev);
        HandlerStarted(s, Step(s, ev), ShapeOf(s.leak, ev), i);
      } else {
        j := HandlerBefore(s, Step(s, ev), ShapeOf(s.leak, ev), i);
      }
    }
  }

  lemma RunOneMore(clock: int, init: seq<Event>, ev: Event)
    ensures Run(clock, init + [ev]) == Step(Run(clock, init), ev)
  {
    assert (init + [ev])[..|init|] == init;
  }

  lemma SamePrefix(init: seq<Event>, ev: Event, k: nat)
    requires k <= |init|
    ensures (init + [ev])[..k] == init[..k]
  {
  }

  lemma PendingExtends(clock: int, init: seq<Event>, ev: Event, m: nat, deadline: int)
    requires PendingSince(clock, init, m, deadline)
    requires Demanded(Step(Run(clock, init), ev).leak) && Step(Run(clock, init), ev).leak.started
    ensures PendingSince(clock, init + [ev], m, deadline)
  {
    var es := init + [ev];
    RunOneMore(clock, init, ev);
    SamePrefix(init, ev, m);
    SamePrefix(init, ev, m + 1);
    forall k | m < k <= |es| ensures Demanded(Run(clock, es[..k]).leak) && Run(clock, es[..k]).leak.started {
      if k <= |init| { SamePrefix(init, ev, k); } else { assert es[..k] == es; }
    }
  }

  lemma PendingStarts(clock: int, es: seq<Event>, m: nat)
    requires |es| == m + 1 && Arms(Run(clock, es[..m]), es[m])
    requires Demanded(Run(clock, es).leak) && Run(clock, es).leak.started
    ensures PendingSince(clock, es, m, es[m].at + EffectiveDelay(Run(clock, es).leak))
  {
    assert es[..m + 1] == es;
    forall k | m < k <= |es| ensures Demanded(Run(clock, es[..k]).leak) && Run(clock, es[..k]).leak.started {
      assert es[..k] == es;
    }
  }

  lemma {:induction false} PendingHasBegun(clock: int, es: seq<Event>, i: nat) returns (m: nat)
    requires NeverLags(clock, es) && Run(clock, es).leak.started && Current(Run(clock, es).leak, i)
    ensures PendingSince(clock, es, m, Run(clock, es).leak.handlers[i].deadline)
  {
    SafeAtEnd(clock, es);
    var init, ev := es[..|es| - 1], es[|es| - 1];
    assert es == init + [ev];
    SafeAtEnd(clock, init);
    var s := Run(clock, init);
    var j := PendingAfter(s, ev, i);
    if Enabled(s, ev) && ShapeOf(s.leak, ev).BumpsAndStarts? {
      m := |init|;
      PendingStarts(clock, es, |init|);
    } else {
      m := PendingHasBegun(clock, init, j);
      PendingExtends(clock, init, ev, m, s.leak.handlers[j].deadline);
    }
  }

  /** When the timer's handler issues a shutdown, the timer was armed at least the effective
      delay earlier, and at every moment since then the leak was present and the loaded policy
      asked for a shutdown. */
  lemma TimedShutdownSawLeakThroughout(clock: int, es: seq<Event>, ev: Event) returns (m: nat)
    requires NeverLags(clock, es) && ev.TimerHandler?
    requires Step(Run(clock, es), ev).leak.issued != Run(clock, es).leak.issued
    ensures m < |es| && Arms(Run(clock, es[..m]), es[m])
    ensures es[m].at + EffectiveDelay(Run(clock, es[..m + 1]).leak) <= ev.at
    ensures forall k :: m < k <= |es| ==> Demanded(Run(clock, es[..k]).leak)
  {
    ShutdownsAreDemanded(clock, es, ev);
    m := PendingHasBegun(clock, es, ev.i);
  }

  // ----- A run in which a handler lags -----

  const FORCE_OFF_IN_10 := PolicyMap(Some("ForceOff"), Value(Num(10.0)))

  /** A leak arms the timer; its wait expires at 10, and before the queued handler gets to run, a
      policy reply arms the timer anew and the leak goes away. Then the leak comes and goes `k`
      times. */
  function Flapping(k: nat): seq<Event> {
    if k == 0 then
      [PolicyReply(FORCE_OFF_IN_10, 0), Polled(0, 0)] + [TimerExpires(0, Success, 10)] +
      [PolicyReply(FORCE_OFF_IN_10, 10), Polled(1, 10)]
    else Flapping(k - 1) + [Polled(0, 10), Polled(1, 10)]
  }

  /** Healthy, with the first handler still queued. */
  predicate Flaps(s: System, epoch: nat) {
    && s.leak.level == Normal && Triggers(s.leak) && s.leak.critical == "ForceOff" && s.leak.delay == Num(10.0)
    && s.leak.gen == Gen(epoch) && s.leak.issued == [] && s.clock == 10
    && s.leak.handlers != [] && s.leak.handlers[0] == Handler(2, 10, Queued(Success))
  }

  lemma FlapOnce(s: System, epoch: nat)
    requires Flaps(s, epoch)
    ensures Flaps(Step(Step(s, Polled(0, 10)), Polled(1, 10)), epoch + 2)
  {
    var s' := Step(s, Polled(0, 10));
    NextGenOfCount(epoch);
    NextGenOfCount(epoch + 1);
    assert EffectiveDelay(s.leak) == 10;
    assert s'.leak.level == Leakage && s'.leak.handlers[0] == s.leak.handlers[0];
  }

  lemma RunTwoMore(clock: int, es: seq<Event>, a: Event, b: Event)
    ensures Run(clock, es + [a, b]) == Step(Step(Run(clock, es), a), b)
  {
    var es1, es2 := es + [a], es + [a, b];
    assert es1[..|es|] == es && es2[..|es1|] == es1;
  }

  const LOADED := INITIAL.(loaded := true, critical := "ForceOff", delay := Num(10.0))

  /** The leak is there, and the handler of the expired wait is queued. */
  const EXPIRED := System(
    LOADED.(level := Leakage, gen := 2, started := true, handlers := [Handler(2, 10, Queued(Success))]), 10, 2, [2])

  lemma ExpiredWait()
    ensures var first := [PolicyReply(FORCE_OFF_IN_10, 0), Polled(0, 0)];
      Run(0, first + [TimerExpires(0, Success, 10)]) ==
      EXPIRED
  {
    var a, b := PolicyReply(FORCE_OFF_IN_10, 0), Polled(0, 0);
    RunTwoMore(0, [], a, b);
    assert [] + [a, b] == [a, b];
    assert Step(Start(0), a) == System(LOADED.(gen := 1), 0, 1, []);
    RunOneMore(0, [a, b], TimerExpires(0, Success, 10));
  }

  lemma OvertakenHandler(s: System)
    requires s == EXPIRED
    ensures Flaps(Step(Step(s, PolicyReply(FORCE_OFF_IN_10, 10)), Polled(1, 10)), 4)
  {
    var s' := Step(s, PolicyReply(FORCE_OFF_IN_10, 10));
    assert s'.leak.gen == 3 && s'.leak.handlers[0] == s.leak.handlers[0];
  }

  lemma FlapsOnceMore(es: seq<Event>, epoch: nat)
    requires Flaps(Run(0, es), epoch)
    ensures Flaps(Run(0, es + [Polled(0, 10), Polled(1, 10)]), epoch + 2)
  {
    RunTwoMore(0, es, Polled(0, 10), Polled(1, 10));
    FlapOnce(Run(0, es), epoch);
  }

  lemma FlappingBase()
    ensures |Flapping(0)| == 5 && Flaps(Run(0, Flapping(0)), 4)
  {
    var first := [PolicyReply(FORCE_OFF_IN_10, 0), Polled(0, 0)] + [TimerExpires(0, Success, 10)];
    ExpiredWait();
    RunTwoMore(0, first, PolicyReply(FORCE_OFF_IN_10, 10), Polled(1, 10));
    OvertakenHandler(Run(0, first));
  }

  lemma {:induction false} FlappingState(k: nat)
    ensures |Flapping(k)| == 2 * k + 5 && Flaps(Run(0, Flapping(k)), 2 * k + 4)
  {
    if k == 0 {
      FlappingBase();
    } else {
      FlappingState(k - 1);
      FlapsOnceMore(Flapping(k - 1), 2 * k + 2);
    }
  }

  /** After 2^64 further generations the handler that expired first carries the current one
      again, and shuts the host down although no leak is present. The run exists because queued
      handlers run in any order here: an event queue that is first in, first out would have run
      this one before everything that was queued later. */
  lemma WrapRevivesStaleHandler()
    ensures var es := Flapping(GENERATIONS / 2 - 1);
      && |es| == GENERATIONS + 3
      && Run(0, es).leak.level == Normal && Run(0, es).leak.issued == []
      && Step(Run(0, es), TimerHandler(0, 10)).leak.issued == [ChassisOff]
  {
    FlappingState(GENERATIONS / 2 - 1);
    StaleHandlerShuts(Run(0, Flapping(GENERATIONS / 2 - 1)));
  }

  lemma StaleHandlerShuts(s: System)
    requires Flaps(s, GENERATIONS + 2)
    ensures Step(s, TimerHandler(0, 10)).leak.issued == [ChassisOff]
  {
  }
}
