/** Session accounting of OpenOCDPortForwardService in src/OpenOCDPortForwardMain.cpp: which
    sessions are in the list, how many there can be, and why the shutdown loop ends. */
module Forwarder {
  const MAX_ACCEPTED_SESSIONS := 16

  /** `sessions.remove_if(candidate == session)` */
  function Without<T(==)>(list: seq<T>, x: T): (r: seq<T>)
    ensures forall y :: y in r ==> y in list && y != x
    ensures forall y :: y in list && y != x ==> y in r
    ensures x !in list ==> r == list
    ensures |r| <= |list| && (x in list ==> |r| < |list|)
  {
    if list == [] then []
    else if list[0] == x then Without(list[1..], x)
    else [list[0]] + Without(list[1..], x)
  }

  predicate NoDuplicates<T(==)>(list: seq<T>) {
    forall i, j :: 0 <= i < j < |list| ==> list[i] != list[j]
  }

  lemma {:induction false} WithoutKeepsNoDuplicates<T>(list: seq<T>, x: T)
    requires NoDuplicates(list)
    ensures NoDuplicates(Without(list, x))
  {
    if list != [] {
      WithoutKeepsNoDuplicates(list[1..], x);
      var rest := Without(list[1..], x);
      if list[0] != x {
        assert list[0] !in list[1..];
      }
    }
  }

  class ProxySession {
    const service: ForwardService
    var tracked: bool
    var stopped: bool

    constructor (service: ForwardService)
      ensures this.service == service && !tracked && !stopped
    {
      this.service, tracked, stopped := service, false, false;
    }

    /** In the list exactly when tracked and not stopped. */
    ghost predicate Active() reads this {
      tracked && !stopped
    }

    /** `stop`: idempotent; a tracked session calls back to be removed from the list. */
    method Stop()
      requires service.Valid() && this in service.created
      modifies this`stopped, service`sessions
      ensures stopped && service.Valid()
      ensures service.sessions == Without(old(service.sessions), this)
      ensures old(stopped) ==> service.sessions == old(service.sessions)
    {
      if stopped {
        return;
      }
      stopped := true;
      if tracked {
        service.RemoveSession(this);
      }
    }

    /** `start`: called once, on a session whose connection has just been accepted. */
    method Start(resolved: bool)
      requires service.Valid() && this in service.created && !tracked && !stopped
      requires |service.sessions| < MAX_ACCEPTED_SESSIONS
      modifies this, service`sessions
      ensures service.Valid() && tracked && stopped == !resolved
      ensures service.sessions == old(service.sessions) + if resolved then [this] else []
    {
      tracked := true;
      service.TrackSession(this);
      if !resolved {
        WithoutAppended(old(service.sessions), this);
        Stop();
      }
    }
  }

  lemma {:induction false} WithoutAppended<T>(list: seq<T>, x: T)
    requires x !in list
    ensures Without(list + [x], x) == list
  {
    if list != [] {
      assert (list + [x])[1..] == list[1..] + [x];
      WithoutAppended(list[1..], x);
    }
  }

  class Listener {
    const service: ForwardService
    var isOpen: bool

    constructor (service: ForwardService)
      ensures this.service == service && !isOpen
    {
      this.service, isOpen := service, false;
    }

    /** `start`: the returned session waits for the first connection. */
    method Start() returns (session: ProxySession)
      requires service.Valid()
      modifies this, service`created
      ensures service.Valid() && isOpen && fresh(session) && service.created == old(service.created) + {session}
      ensures !session.tracked && !session.stopped
    {
      isOpen := true;
      session := DoAccept();
    }

    method Stop()
      modifies this
      ensures !isOpen
    {
      isOpen := false;
    }

    /** `doAccept`: a fresh session object waits for the next connection. */
    method DoAccept() returns (session: ProxySession)
      requires service.Valid()
      modifies service`created
      ensures service.Valid() && fresh(session) && service.created == old(service.created) + {session}
      ensures !session.tracked && !session.stopped
    {
      session := new ProxySession(service);
      service.created := service.created + {session};
    }

    /** `onAccept`: beyond the limit the connection is closed without ever being tracked. An open
        listener goes on with a fresh session. */
    method OnAccept(session: ProxySession, ok: bool, resolved: bool) returns (next: ProxySession?)
      requires service.Valid() && session in service.created && !session.tracked && !session.stopped
      modifies service`sessions, service`created, session
      ensures service.Valid()
      ensures service.sessions == old(service.sessions) +
        if ok && resolved && |old(service.sessions)| < 16 then [session] else []
      ensures session.tracked <==> ok && |old(service.sessions)| < 16
      ensures next != null <==> isOpen
      ensures next != null ==>
        fresh(next) && !next.tracked && !next.stopped && service.created == old(service.created) + {next}
      ensures next == null ==> service.created == old(service.created)
    {
      if ok {
        if service.CanAcceptNewSession() {
          session.Start(resolved);
        }
      }
      next := null;
      if isOpen {
        next := DoAccept();
      }
    }
  }

  class ForwardService {
    var sessions: seq<ProxySession>
    var listeners: seq<Listener>
    var forwardingActive: bool

    /** Every session object ever handed to an acceptor. */
    ghost var created: set<ProxySession>

    ghost predicate Valid() reads this, created {
      && (forall s :: s in created ==> s.service == this)
      && (forall s :: s in created ==> (s in sessions <==> s.Active()))
      && (forall s :: s in sessions ==> s in created)
      && NoDuplicates(sessions)
      && |sessions| <= MAX_ACCEPTED_SESSIONS
    }

    constructor ()
      ensures Valid() && sessions == [] && listeners == [] && created == {} && !forwardingActive
    {
      sessions, listeners, created, forwardingActive := [], [], {}, false;
    }

    method TrackSession(session: ProxySession)
      modifies this`sessions
      ensures sessions == old(sessions) + [session]
    {
      sessions := sessions + [session];
    }

    method RemoveSession(session: ProxySession)
      requires NoDuplicates(sessions)
      modifies this`sessions
      ensures sessions == Without(old(sessions), session) && NoDuplicates(sessions)
    {
      WithoutKeepsNoDuplicates(sessions, session);
      sessions := Without(sessions, session);
    }

    predicate CanAcceptNewSession()
      reads this
    {
      |sessions| < MAX_ACCEPTED_SESSIONS
    }

    /** `startForwarding` over `ports` ports, where an exception ends the loop after `starts`
        listeners. Then the sessions are stopped, but not the listeners that did start: they are
        not in the list yet, and their pending accepts keep them alive. `accepts` holds each
        listener that was started with the session that waits for its first connection. */
    method StartForwarding(ports: nat, starts: nat) returns (ok: bool, accepts: seq<(Listener, ProxySession)>)
      requires Valid()
      modifies this`sessions, this`listeners, this`forwardingActive, this`created, created, listeners
      ensures Valid() && ok == (old(forwardingActive) || ports <= starts) && ok == forwardingActive
      ensures ok ==> sessions == old(sessions) && forall s :: s in old(created) ==> s.stopped == old(s.stopped)
      ensures !ok ==> sessions == [] && listeners == []
      ensures !ok ==> forall s :: s in old(created) ==> (s.stopped <==> old(s.stopped) || old(s.Active()))
      ensures old(forwardingActive) ==> accepts == [] && listeners == old(listeners)
      ensures !old(forwardingActive) ==>
        |accepts| == (if ok then ports else starts) && (ok ==> listeners == ListenersOf(accepts))
      ensures AllWaiting(accepts) && created == old(created) + set a | a in accepts :: a.1
      ensures forall a :: a in accepts ==> fresh(a.0) && fresh(a.1) && a.0.service == this && a.0.isOpen
      ensures forall s :: s in old(created) ==> s.tracked == old(s.tracked)
    {
      accepts := [];
      if forwardingActive {
        return true, [];
      }
      var failed;
      failed, accepts := StartListeners(ports, starts);
      if failed {
        StopForwarding();
        return false, accepts;
      }
      listeners := ListenersOf(accepts);
      forwardingActive := true;
      ok := true;
    }

    /** The loop over the ports. */
    method StartListeners(ports: nat, starts: nat) returns (failed: bool, accepts: seq<(Listener, ProxySession)>)
      requires Valid()
      modifies this`created
      ensures Valid() && failed == (starts < ports) && |accepts| == (if failed then starts else ports)
      ensures AllWaiting(accepts) && created == old(created) + set a | a in accepts :: a.1
      ensures forall a :: a in accepts ==> fresh(a.0) && fresh(a.1) && a.0.service == this && a.0.isOpen
    {
      accepts := [];
      for port := 0 to ports
        invariant port <= starts && |accepts| == port
        invariant AllWaiting(accepts) && created == old(created) + set a | a in accepts :: a.1
        invariant forall a :: a in accepts ==> fresh(a.0) && fresh(a.1) && a.0.service == this && a.0.isOpen
        invariant Valid()
      {
        if port == starts {
          return true, accepts;
        }
        var listener := new Listener(this);
        var session := listener.Start();
        accepts := accepts + [(listener, session)];
      }
      failed := false;
    }

    /** `stopForwarding`: the loop ends because the front session is always tracked and not yet
        stopped, so stopping it takes it off the list. */
    method StopForwarding()
      requires Valid()
      modifies this`sessions, this`listeners, this`forwardingActive, created, listeners
      ensures Valid() && sessions == [] && listeners == [] && !forwardingActive
      ensures forall s :: s in created ==> (s.stopped <==> old(s.stopped) || old(s.Active()))
      ensures forall s :: s in created ==> s.tracked == old(s.tracked)
      ensures forall l :: l in old(listeners) ==> !l.isOpen
    {
      for i := 0 to |listeners|
        invariant Valid() && sessions == old(sessions) && listeners == old(listeners)
        invariant forall s :: s in created ==> s.stopped == old(s.stopped) && s.tracked == old(s.tracked)
        invariant forall l :: l in listeners[..i] ==> !l.isOpen
      {
        listeners[i].Stop();
      }
      assert listeners[..|listeners|] == listeners;
      listeners := [];
      while sessions != []
        invariant Valid() && listeners == []
        invariant forall s :: s in created ==> s.tracked == old(s.tracked)
        invariant forall s :: s in created ==> (s.stopped <==> old(s.stopped) || (old(s.Active()) && s !in sessions))
        invariant forall l :: l in old(listeners) ==> !l.isOpen
        decreases |sessions|
      {
        assert sessions[0] in sessions;
        sessions[0].Stop();
      }
      forwardingActive := false;
    }
  }

  function ListenersOf(accepts: seq<(Listener, ProxySession)>): (ls: seq<Listener>)
    ensures |ls| == |accepts| && forall i :: 0 <= i < |ls| ==> ls[i] == accepts[i].0
  {
    seq(|accepts|, i requires 0 <= i < |accepts| => accepts[i].0)
  }

  /** The sessions of outstanding accepts: each its own, and none started yet. */
  ghost predicate AllWaiting(accepts: seq<(Listener, ProxySession)>)
    reads set a | a in accepts :: a.1
  {
    && (forall a :: a in accepts ==> !a.1.tracked && !a.1.stopped)
    && (forall i, j :: 0 <= i < j < |accepts| ==> accepts[i].1 != accepts[j].1)
  }

  /** Everything that can happen to the forwarder: the k-th outstanding accept completes, a session
      that was started fails in some callback, and forwarding is switched on or off. */
  datatype Event =
    | Accepted(accept: nat, ok: bool, resolved: bool)
    | Fails(session: nat)
    | Enabled(ports: nat, starts: nat)
    | Disabled

  /** All sessions there ever were, and the outstanding accepts among them. */
  ghost predicate Consistent(service: ForwardService, all: seq<ProxySession>, accepts: seq<(Listener, ProxySession)>)
    reads service, service.created, set a | a in accepts :: a.1
  {
    && service.Valid() && AllWaiting(accepts)
    && service.created == (set s | s in all)
    && (forall a :: a in accepts ==> a.0.service == service && a.1 in service.created)
  }

  method CompleteAccept(service: ForwardService, all: seq<ProxySession>, accepts: seq<(Listener, ProxySession)>,
                        k: nat, ok: bool, resolved: bool)
    returns (all': seq<ProxySession>, accepts': seq<(Listener, ProxySession)>)
    requires Consistent(service, all, accepts) && k < |accepts|
    modifies service`sessions, service`created, service.created
    ensures Consistent(service, all', accepts')
    ensures forall s :: s in service.created ==> s in old(service.created) || fresh(s)
  {
    var listener, session := accepts[k].0, accepts[k].1;
    assert accepts[k] in accepts;
    accepts' := accepts[..k] + accepts[k + 1..];
    all' := all;
    RestWaits(accepts, k);
    var next := listener.OnAccept(session, ok, resolved);
    assert AllWaiting(accepts');
    if next != null {
      all', accepts' := all + [next], accepts' + [(listener, next)];
    }
  }

  /** One step of a history. */
  method Step(service: ForwardService, all: seq<ProxySession>, accepts: seq<(Listener, ProxySession)>, ev: Event)
    returns (all': seq<ProxySession>, accepts': seq<(Listener, ProxySession)>)
    requires Consistent(service, all, accepts)
    modifies service, service.created, service.listeners
    ensures Consistent(service, all', accepts')
    ensures forall s :: s in service.created ==> s in old(service.created) || fresh(s)
    ensures forall i :: 0 <= i < |service.listeners| ==>
      service.listeners[i] in old(service.listeners) || fresh(service.listeners[i])
    ensures ev.Disabled? ==> service.sessions == [] && service.listeners == []
  {
    all', accepts' := all, accepts;
    match ev {
      case Accepted(k, ok, resolved) =>
        if k < |accepts| {
          all', accepts' := CompleteAccept(service, all, accepts, k, ok, resolved);
        }
      case Fails(k) =>
        if k < |all| && all[k].tracked {
          assert all[k] in service.created;
          all[k].Stop();
        }
      case Enabled(ports, starts) =>
        var _, started := service.StartForwarding(ports, starts);
        all', accepts' := all + SessionsOf(started), accepts + started;
      case Disabled => service.StopForwarding();
    }
  }

  /** Any history: in every state the list holds exactly the sessions that are tracked and not
      stopped, without duplicates and never more than 16, and switching off empties it. */
  method AnyHistory(service: ForwardService, events: seq<Event>)
    requires service.Valid() && service.created == {} && service.sessions == [] && service.listeners == []
    modifies service
    ensures service.Valid() && |service.sessions| <= 16
    ensures events != [] && events[|events| - 1].Disabled? ==> service.sessions == [] && service.listeners == []
  {
    var all: seq<ProxySession> := [];
    var accepts: seq<(Listener, ProxySession)> := [];
    for i := 0 to |events|
      invariant Consistent(service, all, accepts)
      invariant fresh(service.created) && fresh(service.listeners)
      invariant i > 0 && events[i - 1].Disabled? ==> service.sessions == [] && service.listeners == []
    {
      all, accepts := Step(service, all, accepts, events[i]);
    }
  }

  function SessionsOf(accepts: seq<(Listener, ProxySession)>): (ss: seq<ProxySession>)
    ensures |ss| == |accepts| && forall i :: 0 <= i < |ss| ==> ss[i] == accepts[i].1
  {
    seq(|accepts|, i requires 0 <= i < |accepts| => accepts[i].1)
  }

  lemma RestWaits(accepts: seq<(Listener, ProxySession)>, k: nat)
    requires k < |accepts| && AllWaiting(accepts)
    ensures AllWaiting(accepts[..k] + accepts[k + 1..])
    ensures forall a :: a in accepts[..k] + accepts[k + 1..] ==> a in accepts && a.1 != accepts[k].1
  {
  }
}
