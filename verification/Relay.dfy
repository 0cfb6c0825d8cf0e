/** The two-way relay of ProxySession in src/OpenOCDPortForwardMain.cpp. */
module Relay {
  type byte = bv8

  const TRANSFER_BUFFER_SIZE := 8192

  /** One direction: its transfer buffer, the outstanding read or write, and the bytes that the
      completed reads brought in and that have gone out so far. While a write is outstanding
      the bytes still to be sent are `buffer[pos..end]`, taken from the buffer itself. */
  datatype Pipe = Pipe(
    buffer: seq<byte>, reading: bool, writing: bool, pos: nat, end: nat,
    received: seq<byte>, delivered: seq<byte>)

  // ----- Specification -----

  function StartRead(p: Pipe): Pipe {
    p.(reading := true)
  }

  /** A completed read has put `data` at the front of the buffer. */
  function ReadDone(p: Pipe, data: seq<byte>): Pipe
    requires |data| <= |p.buffer|
  {
    p.(buffer := data + p.buffer[|data|..], reading := false, writing := true, pos := 0, end := |data|,
       received := p.received + data)
  }

  function ReadFailed(p: Pipe): Pipe {
    p.(reading := false)
  }

  /** The composed write hands `k` more bytes to the socket. */
  function Sent(p: Pipe, k: nat): Pipe
    requires p.pos + k <= p.end <= |p.buffer|
  {
    p.(delivered := p.delivered + p.buffer[p.pos..p.pos + k], pos := p.pos + k)
  }

  function WriteDone(p: Pipe): Pipe {
    p.(writing := false)
  }

  // ----- The source's own form -----

  class PipeObject {
    const buffer: array<byte>
    var reading: bool
    var writing: bool
    var pos: nat
    var end: nat
    var received: seq<byte>
    var delivered: seq<byte>

    ghost function State(): Pipe reads this, buffer {
      Pipe(buffer[..], reading, writing, pos, end, received, delivered)
    }

    constructor ()
      ensures buffer.Length == TRANSFER_BUFFER_SIZE && fresh(buffer)
      ensures State() == Pipe(buffer[..], false, false, 0, 0, [], [])
    {
      buffer := new byte[TRANSFER_BUFFER_SIZE];
      reading, writing, pos, end, received, delivered := false, false, 0, 0, [], [];
    }

    method BeginRead()
      modifies this`reading
      ensures State() == StartRead(old(State()))
    {
      reading := true;
    }

    /** The data arrives in place; the write of exactly these bytes starts at once. */
    method OnReadData(data: seq<byte>)
      requires |data| <= buffer.Length
      modifies this, buffer
      ensures State() == ReadDone(old(State()), data)
    {
      reading := false;
      for i := 0 to |data|
        invariant forall j :: 0 <= j < buffer.Length ==> buffer[j] == if j < i then data[j] else old(buffer[j])
        invariant reading == false && writing == old(writing) && pos == old(pos) && end == old(end)
        invariant received == old(received) && delivered == old(delivered)
      {
        buffer[i] := data[i];
      }
      assert buffer[..] == data + old(buffer[..])[|data|..];
      writing, pos, end := true, 0, |data|;
      received := received + data;
    }

    method OnReadError()
      modifies this`reading
      ensures State() == ReadFailed(old(State()))
    {
      reading := false;
    }

    method Send(k: nat)
      requires pos + k <= end <= buffer.Length
      modifies this`delivered, this`pos
      ensures State() == Sent(old(State()), k)
    {
      delivered := delivered + buffer[pos..pos + k];
      pos := pos + k;
    }

    method OnWriteDone()
      modifies this`writing
      ensures State() == WriteDone(old(State()))
    {
      writing := false;
    }
  }

  // ----- A whole session -----

  /** The session: whether the connection to the remote side is outstanding, both directions,
      and whether its sockets have been closed by `stop`. */
  datatype Session = Session(connecting: bool, clientToRemote: Pipe, remoteToClient: Pipe, stopped: bool)

  datatype Direction = ClientToRemote | RemoteToClient

  datatype Event =
    | Connected(ok: bool)
    | ReadCompletes(dir: Direction, ok: bool, data: seq<byte>)
    | WriteProgress(dir: Direction, k: nat)
    | WriteCompletes(dir: Direction, ok: bool)
    | StopRequested

  function PipeOf(s: Session, dir: Direction): Pipe {
    match dir case ClientToRemote => s.clientToRemote case RemoteToClient => s.remoteToClient
  }

  function With(s: Session, dir: Direction, p: Pipe): Session {
    match dir case ClientToRemote => s.(clientToRemote := p) case RemoteToClient => s.(remoteToClient := p)
  }

  /** `onRemoteConnect` */
  function OnConnect(s: Session, ok: bool): Session {
    if !ok then s.(connecting := false, stopped := true)
    else Session(false, StartRead(s.clientToRemote), StartRead(s.remoteToClient), s.stopped)
  }

  /** `onClientRead` and `onRemoteRead`: a read is answered by the write of its bytes. */
  function OnRead(s: Session, dir: Direction, ok: bool, data: seq<byte>): Session
    requires |data| <= |PipeOf(s, dir).buffer|
  {
    if ok then With(s, dir, ReadDone(PipeOf(s, dir), data))
    else With(s, dir, ReadFailed(PipeOf(s, dir))).(stopped := true)
  }

  /** `onClientWriteDone` and `onRemoteWriteDone`: a finished write is followed by the next read. */
  function OnWriteDone(s: Session, dir: Direction, ok: bool): Session {
    if ok then With(s, dir, StartRead(WriteDone(PipeOf(s, dir))))
    else With(s, dir, WriteDone(PipeOf(s, dir))).(stopped := true)
  }

  class ProxyRelay {
    var connecting: bool
    const clientToRemote: PipeObject
    const remoteToClient: PipeObject
    var stopped: bool

    ghost predicate Valid() {
      clientToRemote != remoteToClient && clientToRemote.buffer != remoteToClient.buffer
    }

    ghost function State(): Session
      reads this, clientToRemote, clientToRemote.buffer, remoteToClient, remoteToClient.buffer
    {
      Session(connecting, clientToRemote.State(), remoteToClient.State(), stopped)
    }

    constructor ()
      ensures Valid()
      ensures State() == Session(true, Fresh(clientToRemote.buffer[..]), Fresh(remoteToClient.buffer[..]), false)
    {
      connecting, stopped := true, false;
      clientToRemote := new PipeObject();
      remoteToClient := new PipeObject();
    }

    method Stop()
      modifies this`stopped
      ensures State() == old(State()).(stopped := true)
    {
      stopped := true;
    }

    method OnRemoteConnect(ok: bool)
      requires Valid()
      modifies this, clientToRemote`reading, remoteToClient`reading
      ensures State() == OnConnect(old(State()), ok)
    {
      connecting := false;
      if !ok {
        Stop();
        return;
      }
      clientToRemote.BeginRead();
      remoteToClient.BeginRead();
    }

    method OnClientRead(ok: bool, data: seq<byte>)
      requires Valid() && |data| <= clientToRemote.buffer.Length
      modifies this`stopped, clientToRemote, clientToRemote.buffer
      ensures State() == OnRead(old(State()), ClientToRemote, ok, data)
    {
      if !ok {
        clientToRemote.OnReadError();
        Stop();
        return;
      }
      clientToRemote.OnReadData(data);
    }

    method OnClientWriteDone(ok: bool)
      requires Valid()
      modifies this`stopped, clientToRemote
      ensures State() == OnWriteDone(old(State()), ClientToRemote, ok)
    {
      clientToRemote.OnWriteDone();
      if !ok {
        Stop();
        return;
      }
      clientToRemote.BeginRead();
    }

    method OnRemoteRead(ok: bool, data: seq<byte>)
      requires Valid() && |data| <= remoteToClient.buffer.Length
      modifies this`stopped, remoteToClient, remoteToClient.buffer
      ensures State() == OnRead(old(State()), RemoteToClient, ok, data)
    {
      if !ok {
        remoteToClient.OnReadError();
        Stop();
        return;
      }
      remoteToClient.OnReadData(data);
    }

    method OnRemoteWriteDone(ok: bool)
      requires Valid()
      modifies this`stopped, remoteToClient
      ensures State() == OnWriteDone(old(State()), RemoteToClient, ok)
    {
      remoteToClient.OnWriteDone();
      if !ok {
        Stop();
        return;
      }
      remoteToClient.BeginRead();
    }
  }

  // ----- Whole runs -----

  /** What the event loop can deliver: completions of outstanding operations only, bytes only
      into an open socket, and a write reports success only when all its bytes are out. */
  predicate Enabled(s: Session, ev: Event) {
    match ev
    case Connected(_) => s.connecting
    case ReadCompletes(dir, ok, data) => PipeOf(s, dir).reading && |data| <= |PipeOf(s, dir).buffer|
    case WriteProgress(dir, k) =>
      var p := PipeOf(s, dir);
      !s.stopped && p.writing && p.pos + k <= p.end <= |p.buffer|
    case WriteCompletes(dir, ok) =>
      var p := PipeOf(s, dir);
      p.writing && (ok ==> p.pos == p.end)
    case StopRequested => true
  }

  function Step(s: Session, ev: Event): Session {
    if !Enabled(s, ev) then s
    else
      match ev
      case Connected(ok) => OnConnect(s, ok)
      case ReadCompletes(dir, ok, data) => OnRead(s, dir, ok, data)
      case WriteProgress(dir, k) => With(s, dir, Sent(PipeOf(s, dir), k))
      case WriteCompletes(dir, ok) => OnWriteDone(s, dir, ok)
      case StopRequested => s.(stopped := true)
  }

  function Fresh(buffer: seq<byte>): Pipe {
    Pipe(buffer, false, false, 0, 0, [], [])
  }

  function Run(buffers: (seq<byte>, seq<byte>), es: seq<Event>): Session {
    if es == [] then Session(true, Fresh(buffers.0), Fresh(buffers.1), false)
    else Step(Run(buffers, es[..|es| - 1]), es[|es| - 1])
  }

  /** The bytes that have come in but not gone out are the ones the outstanding write still has
      in the buffer; there are none while a read is outstanding. */
  predicate PipeOk(p: Pipe) {
    && |p.buffer| == TRANSFER_BUFFER_SIZE && p.pos <= p.end <= TRANSFER_BUFFER_SIZE
    && !(p.reading && p.writing)
    && p.received == p.delivered + p.buffer[p.pos..p.end]
    && (p.reading ==> p.pos == p.end)
  }

  lemma ReadKeepsPipe(p: Pipe, data: seq<byte>)
    requires PipeOk(p) && p.reading && |data| <= TRANSFER_BUFFER_SIZE
    ensures PipeOk(ReadDone(p, data))
  {
    var p' := ReadDone(p, data);
    assert p'.buffer[0..|data|] == data;
    assert p.buffer[p.pos..p.end] == [];
  }

  lemma SendKeepsPipe(p: Pipe, k: nat)
    requires PipeOk(p) && p.writing && p.pos + k <= p.end
    ensures PipeOk(Sent(p, k))
  {
    assert p.buffer[p.pos..p.end] == p.buffer[p.pos..p.pos + k] + p.buffer[p.pos + k..p.end];
  }

  /** Before the connection completes nothing is outstanding and nothing has come in. */
  predicate SessionOk(s: Session) {
    && PipeOk(s.clientToRemote) && PipeOk(s.remoteToClient)
    && (s.connecting ==>
          s.clientToRemote == Fresh(s.clientToRemote.buffer) && s.remoteToClient == Fresh(s.remoteToClient.buffer))
  }

  lemma StepKeepsSession(s: Session, ev: Event)
    requires SessionOk(s)
    ensures SessionOk(Step(s, ev))
  {
    if Enabled(s, ev) {
      match ev
      case ReadCompletes(dir, ok, data) => ReadKeepsPipe(PipeOf(s, dir), data);
      case WriteProgress(dir, k) => SendKeepsPipe(PipeOf(s, dir), k);
      case _ =>
    }
  }

  lemma {:induction false} SessionAlwaysOk(buffers: (seq<byte>, seq<byte>), es: seq<Event>)
    requires |buffers.0| == |buffers.1| == TRANSFER_BUFFER_SIZE
    ensures SessionOk(Run(buffers, es))
  {
    if es != [] {
      SessionAlwaysOk(buffers, es[..|es| - 1]);
      StepKeepsSession(Run(buffers, es[..|es| - 1]), es[|es| - 1]);
    }
  }

  /** In each direction, after every sequence of completions, errors and stops: what went out is
      a prefix of what came in, at most one buffer behind, and no read is outstanding into a
      buffer that is still being written out. */
  lemma RelayIsFaithful(buffers: (seq<byte>, seq<byte>), es: seq<Event>, dir: Direction)
    requires |buffers.0| == |buffers.1| == TRANSFER_BUFFER_SIZE
    ensures var p := PipeOf(Run(buffers, es), dir);
      && p.delivered <= p.received
      && |p.received| - |p.delivered| <= 8192
      && !(p.reading && p.writing)
      && (p.reading ==> p.delivered == p.received)
  {
    SessionAlwaysOk(buffers, es);
  }

  /** While the session runs, both directions keep going: each has its next read or its write
      outstanding, and a finished write is followed by a read. */
  predicate KeepsGoing(s: Session) {
    !s.connecting && !s.stopped ==>
      && (s.clientToRemote.reading || s.clientToRemote.writing)
      && (s.remoteToClient.reading || s.remoteToClient.writing)
  }

  lemma {:induction false} RelayKeepsGoing(buffers: (seq<byte>, seq<byte>), es: seq<Event>)
    ensures KeepsGoing(Run(buffers, es))
  {
    if es != [] { RelayKeepsGoing(buffers, es[..|es| - 1]); }
  }

  /** What one completion does to its direction: a successful read brings its bytes in and starts the
      write of all of them; a write that is done is followed by a read; an error of either, or of
      connecting, stops the session. The other direction is not touched. */
  lemma CompletionEffect(s: Session, ev: Event)
    requires Enabled(s, ev) && (ev.ReadCompletes? || ev.WriteCompletes?)
    ensures var p, p' := PipeOf(s, ev.dir), PipeOf(Step(s, ev), ev.dir);
      && (Step(s, ev).stopped <==> s.stopped || !ev.ok)
      && (ev.ReadCompletes? && ev.ok ==>
            p'.received == p.received + ev.data && p'.buffer[p'.pos..p'.end] == ev.data && p'.writing && !p'.reading)
      && (ev.WriteCompletes? && ev.ok ==> p'.reading && !p'.writing && p'.received == p.received)
      && p'.delivered == p.delivered
    ensures var other := if ev.dir == ClientToRemote then RemoteToClient else ClientToRemote;
      PipeOf(Step(s, ev), other) == PipeOf(s, other)
  {
  }

  /** A connection to the remote side starts a read in both directions; a failed one stops. */
  lemma ConnectEffect(s: Session, ok: bool)
    requires s.connecting
    ensures var s' := Step(s, Connected(ok));
      && !s'.connecting && (s'.stopped <==> s.stopped || !ok)
      && (ok ==> s'.clientToRemote.reading && s'.remoteToClient.reading)
  {
  }

  /** Nothing goes out in either direction once the session has stopped, and it stays stopped. */
  lemma {:induction false} NothingAfterStop(s: Session, es: seq<Event>, dir: Direction)
    requires s.stopped
    ensures var s' := Continue(s, es);
      s'.stopped && PipeOf(s', dir).delivered == PipeOf(s, dir).delivered
  {
    if es != [] { NothingAfterStop(s, es[..|es| - 1], dir); }
  }

  function Continue(s: Session, es: seq<Event>): Session {
    if es == [] then s else Step(Continue(s, es[..|es| - 1]), es[|es| - 1])
  }
}
