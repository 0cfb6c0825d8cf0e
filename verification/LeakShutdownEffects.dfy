/** What each step of the leak shutdown protocol does: which shutdowns must be requested or pending,
    in terms of the leak, the policy's own values and the waits. */
module LeakShutdownEffects {
  import opened Basics
  import opened DiscreteLeak
  import opened LeakShutdownSafety

  /** The transition a reaction type names. */
  predicate Names(critical: string, t: Transition) {
    t == if critical == "GracefulShutdown" then HostOff else ChassisOff
  }

  predicate Requests(s: Leak, s': Leak, critical: string) {
    |s'.issued| == |s.issued| + 1 && s'.issued[..|s.issued|] == s.issued && Names(critical, s'.issued[|s.issued|])
  }

  /** `secs` are the whole seconds of a delay of at least one second, as many as an unsigned int
      can hold. */
  predicate WholeSecondsOf(delay: real, secs: int) {
    if delay >= 4294967295.0 then secs == 4294967295 else secs as real <= delay < secs as real + 1.0
  }

  /** Running waits have been aborted; handlers that were queued keep their outcome. */
  predicate WaitsAborted(hs: seq<Handler>, hs': seq<Handler>) {
    && |hs'| >= |hs|
    && forall i :: 0 <= i < |hs| ==>
         && hs'[i].gen == hs[i].gen && hs'[i].deadline == hs[i].deadline
         && hs'[i].phase == if hs[i].phase.Running? then Queued(Aborted) else hs[i].phase
  }

  /** What arming at time `at` must leave, for the policy's reaction type and delay: a request at
      once if the delay is bad or below one second, otherwise one running wait. */
  predicate Armed(s: Leak, s': Leak, critical: string, delay: Double, at: int) {
    && s'.level == Leakage && s'.loaded && s'.critical == critical && s'.delay == delay
    && s'.gen == (s.gen + 1) % 0x1_0000_0000_0000_0000 && WaitsAborted(s.handlers, s'.handlers)
    && if delay.NaN? || delay.val < 1.0 then
         Requests(s, s', critical) && !s'.started && |s'.handlers| == |s.handlers|
       else
         && s'.issued == s.issued && s'.started && |s'.handlers| == |s.handlers| + 1
         && var h := s'.handlers[|s.handlers|];
            h.phase.Running? && h.gen == s'.gen && WholeSecondsOf(delay.val, h.deadline - at)
  }

  /** What ending a pending shutdown must leave. */
  predicate Disarmed(s: Leak, s': Leak) {
    && s'.issued == s.issued && !s'.started && s'.gen == (s.gen + 1) % 0x1_0000_0000_0000_0000
    && WaitsAborted(s.handlers, s'.handlers) && |s'.handlers| == |s.handlers|
  }

  lemma FloorIs(r: real)
    requires r >= 1.0
    ensures r.Floor as real <= r < r.Floor as real + 1.0 && r.Floor >= 1
  {
  }

  lemma StartArms(s: Leak, at: int)
    requires s.level == Leakage && s.loaded && s.critical != "None"
    ensures Armed(s, StartShutdown(s, at), s.critical, s.delay, at)
  {
    if s.delay.Num? && s.delay.val >= 1.0 {
      FloorIs(s.delay.val);
    }
  }

  lemma SameRequests(s0: Leak, s: Leak, s': Leak, at: int)
    requires s0.issued == s.issued && s0.handlers == s.handlers && s0.gen == s.gen
    requires Armed(s, s', s.critical, s.delay, at)
    ensures Armed(s0, s', s.critical, s.delay, at)
  {
  }

  // ----- Polls -----

  /** A leak that appears while the loaded policy asks for a shutdown arms one. */
  lemma LeakAppears(s: System, leakVal: int, at: int)
    requires s.clock <= at && s.leak.level == Normal && leakVal != 1
    requires s.leak.loaded && s.leak.critical != "None"
    ensures Armed(s.leak, Step(s, Polled(leakVal, at)).leak, s.leak.critical, s.leak.delay, at)
  {
    var s1 := s.leak.(level := Leakage);
    StartArms(s1, at);
    SameRequests(s.leak, s1, StartShutdown(s1, at), at);
  }

  /** A leak that goes away ends the pending shutdown; a poll that shows no change, or a leak without
      a policy that asks for a shutdown, changes nothing but the level. */
  lemma OtherPolls(s: System, leakVal: int, at: int)
    requires s.clock <= at
    ensures var s' := Step(s, Polled(leakVal, at)).leak;
      && (s'.level == Normal <==> leakVal == 1)
      && (s.leak.level == Leakage && leakVal == 1 ==> Disarmed(s.leak, s'))
      && (s.leak.level == s'.level ==> s' == s.leak)
      && (s.leak.level == Normal && leakVal != 1 && !(s.leak.loaded && s.leak.critical != "None") ==>
            s' == s.leak.(level := Leakage))
  {
  }

  // ----- Policies -----

  /** A policy's values after a reply: a missing field keeps its value, an unreadable delay is 0. */
  predicate PolicyIs(s: Leak, m: PolicyMap, critical: string, delay: Double) {
    && (if m.critical.Some? then critical == m.critical.value else critical == s.critical)
    && match m.delay
       case Missing => delay == s.delay
       case Invalid => delay == Num(0.0)
       case Value(d) => delay == d
  }

  /** A reply that asks for a shutdown while a leak is present arms one anew; any other ends the
      pending one. */
  lemma ReplyEffect(s: System, m: PolicyMap, at: int, critical: string, delay: Double)
    requires s.clock <= at && PolicyIs(s.leak, m, critical, delay)
    ensures var s' := Step(s, PolicyReply(m, at)).leak;
      && s'.loaded && s'.critical == critical && s'.delay == delay && s'.level == s.leak.level
      && (if s.leak.level == Leakage && critical != "None" then Armed(s.leak, s', critical, delay, at)
          else Disarmed(s.leak, s'))
  {
    var s1 := WithPolicy(s.leak, m);
    if s.leak.level == Leakage && critical != "None" {
      StartArms(s1, at);
      SameRequests(s.leak, s1, StartShutdown(s1, at), at);
    }
  }

  /** A new binding ends the pending shutdown, and until its first reply no leak arms another. */
  lemma BindingEffect(s: System, path: string, at: int)
    requires s.clock <= at
    ensures var s' := Step(s, Bound(path, at)).leak;
      && Disarmed(s.leak, s') && s'.path == Some(path) && !s'.loaded && s'.level == s.leak.level
      && s'.critical == s.leak.critical && s'.delay == s.leak.delay
  {
  }

  // ----- Handlers -----

  /** A queued handler that runs leaves the list. One of an old generation does nothing else; the
      current one ends the wait, and requests the transition of the policy if it succeeded while the
      policy asks for a shutdown. */
  lemma HandlerEffect(s: System, i: nat, at: int)
    requires s.clock <= at && i < |s.leak.handlers| && s.leak.handlers[i].phase.Queued?
    ensures var s', h := Step(s, TimerHandler(i, at)).leak, s.leak.handlers[i];
      && s'.handlers == s.leak.handlers[..i] + s.leak.handlers[i + 1..] && s'.gen == s.leak.gen
      && (if h.gen != s.leak.gen then s' == s.leak.(handlers := s'.handlers)
          else
            && !s'.started
            && (if h.phase == Queued(Success) && s.leak.loaded && s.leak.critical != "None"
                then Requests(s.leak, s', s.leak.critical)
                else s'.issued == s.leak.issued))
  {
  }

  /** In a run that never lags, the current handler that succeeded requests exactly one transition. */
  lemma CurrentHandlerShuts(clock: int, es: seq<Event>, i: nat, at: int)
    requires NeverLags(clock, es)
    requires var s := Run(clock, es);
      && s.clock <= at && Current(s.leak, i) && s.leak.handlers[i].phase == Queued(Success)
    ensures var s, s' := Run(clock, es), Step(Run(clock, es), TimerHandler(i, at));
      Requests(s.leak, s'.leak, s.leak.critical) && s.leak.level == Leakage && !s'.leak.started
  {
    SafeAtEnd(clock, es);
    assert Current(Run(clock, es).leak, i);
    HandlerEffect(Run(clock, es), i, at);
  }

  /** After any arming with a delay of a second or more in a run that does not lag, the armed wait's
      handler is the one and only current one. */
  lemma ArmedHandlerIsCurrent(clock: int, es: seq<Event>, ev: Event, critical: string, delay: Double)
    requires var s, s' := Run(clock, es), Run(clock, es + [ev]);
      Armed(s.leak, s'.leak, critical, delay, ev.at) && delay.Num? && delay.val >= 1.0
    requires NeverLags(clock, es + [ev])
    ensures var s, s' := Run(clock, es), Run(clock, es + [ev]);
      forall i :: Current(s'.leak, i) <==> i == |s.leak.handlers|
  {
    SafeAtEnd(clock, es + [ev]);
    assert Current(Run(clock, es + [ev]).leak, |Run(clock, es).leak.handlers|);
  }

  /** From arming to shutdown: when the armed wait expires at or after its deadline and its handler
      runs before anything else happens, the transition the policy names is requested, once. */
  lemma ArmedTimerShuts(s: System, s': System, critical: string, delay: Double, at: int, expiry: int, run: int)
    requires Armed(s.leak, s'.leak, critical, delay, at) && delay.Num? && delay.val >= 1.0 && critical != "None"
    requires s'.clock <= expiry <= run && s'.leak.handlers[|s.leak.handlers|].deadline <= expiry
    ensures var n := |s.leak.handlers|;
      var after := Step(Step(s', TimerExpires(n, Success, expiry)), TimerHandler(n, run));
      Requests(s.leak, after.leak, critical) && !after.leak.started
  {
    var n := |s.leak.handlers|;
    var expired := Step(s', TimerExpires(n, Success, expiry));
    assert expired.leak == s'.leak.(handlers := s'.leak.handlers[n := s'.leak.handlers[n].(phase := Queued(Success))]);
    HandlerEffect(expired, n, run);
  }
}
