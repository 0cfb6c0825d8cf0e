/** The configuration fetch over every order of replies, failures and retry timers. */
module ConfigFetchRuns {
  import opened ConfigFetch

  datatype Event =
    | CallerReleases
    | MapperReply(rows: seq<Row>)
    | MapperError
    | MapperRetry(ok: bool)
    | PathReply(k: nat, data: Data)
    | PathError(k: nat)
    | PathRetry(k: nat, ok: bool)

  /** Only what is outstanding can complete. */
  predicate Enabled(f: Fetch, ev: Event) {
    match ev
    case CallerReleases => f.callerHolds
    case MapperReply(_) => f.mapper.Calling?
    case MapperError => f.mapper.Calling?
    case MapperRetry(_) => f.mapper.Pausing? && f.mapper.retries > 0
    case PathReply(k, _) => k < |f.requests| && f.requests[k].status.InFlight?
    case PathError(k) => k < |f.requests| && f.requests[k].status.InFlight?
    case PathRetry(k, _) => k < |f.requests| && f.requests[k].status.Waiting? && f.requests[k].status.retries > 0
  }

  function Step(f: Fetch, ev: Event): Fetch {
    if !Enabled(f, ev) then f
    else
      match ev
      case CallerReleases => Destruct(f.(callerHolds := false))
      case MapperReply(rows) => MapperReplied(f, rows)
      case MapperError => MapperFailed(f)
      case MapperRetry(ok) => MapperTimer(f, ok)
      case PathReply(k, data) => PathReplied(f, k, data)
      case PathError(k) => PathFailed(f, k)
      case PathRetry(k, ok) => PathTimer(f, k, ok)
  }

  function Run(types: seq<string>, retries: nat, es: seq<Event>): Fetch {
    if es == [] then Begin(types, retries)
    else Step(Run(types, retries, es[..|es| - 1]), es[|es| - 1])
  }

  /** How many completions the run contains. */
  function Steps(types: seq<string>, retries: nat, es: seq<Event>): nat {
    if es == [] then 0
    else
      var init, ev := es[..|es| - 1], es[|es| - 1];
      Steps(types, retries, init) + if Enabled(Run(types, retries, init), ev) then 1 else 0
  }

  // ----- Invariant -----

  predicate RequestOk(r: Request) {
    match r.status
    case InFlight(n) => n <= MAX_RETRIES && r.attempts + n == MAX_RETRIES + 1
    case Waiting(n) => 0 < n <= MAX_RETRIES && r.attempts + n == MAX_RETRIES + 1
    case GaveUp => r.attempts == MAX_RETRIES + 1
    case _ => r.attempts <= MAX_RETRIES + 1
  }

  predicate IsAnswered(rs: seq<Request>, k: nat, key: (string, string)) {
    k < |rs| && rs[k].status.Answered? && (rs[k].path, rs[k].iface) == key
  }

  /** The response holds exactly the pairs that got a reply, with the data of a reply. */
  ghost predicate ResponseOk(rs: seq<Request>, resp: map<(string, string), Data>) {
    && (forall key :: key in resp ==> exists k: nat :: IsAnswered(rs, k, key) && rs[k].status.data == resp[key])
    && (forall k: nat, key :: IsAnswered(rs, k, key) ==> key in resp)
  }

  predicate QueriesOk(m: Mapper, rs: seq<Request>) {
    && (m.Pausing? ==> m.retries > 0)
    && (!m.Done? ==> m.retries <= MAX_RETRIES && rs == [])
    && (forall k :: 0 <= k < |rs| ==> RequestOk(rs[k]))
  }

  ghost predicate FetchOk(f: Fetch) {
    && QueriesOk(f.mapper, f.requests)
    && ResponseOk(f.requests, f.respData)
    && f.callbacks == if f.callerHolds || Outstanding(f) then [] else [f.respData]
  }

  lemma DestructKeepsOk(f: Fetch)
    requires QueriesOk(f.mapper, f.requests) && ResponseOk(f.requests, f.respData) && f.callbacks == []
    ensures FetchOk(Destruct(f))
  {
    var g := Destruct(f);
    assert g.requests == f.requests && Outstanding(g) == Outstanding(f);
  }

  lemma {:induction false} RowRequestsFresh(path: string, owner: string, ifaces: seq<string>, wanted: seq<string>)
    ensures forall r :: r in RowRequests(path, owner, ifaces, wanted) ==>
      r.attempts == 1 && r.status == InFlight(MAX_RETRIES)
  {
    if ifaces != [] { RowRequestsFresh(path, owner, ifaces[..|ifaces| - 1], wanted); }
  }

  lemma {:induction false} NewRequestsFresh(rows: seq<Row>, wanted: seq<string>)
    ensures forall r :: r in NewRequests(rows, wanted) ==> r.attempts == 1 && r.status == InFlight(MAX_RETRIES)
  {
    if rows != [] && rows[0].owners != [] {
      RowRequestsFresh(rows[0].path, rows[0].owners[0].0, rows[0].owners[0].1, wanted);
      NewRequestsFresh(rows[1..], wanted);
    }
  }

  lemma ReplyKeepsResponse(rs: seq<Request>, resp: map<(string, string), Data>, k: nat, data: Data)
    requires ResponseOk(rs, resp) && k < |rs| && rs[k].status.InFlight?
    ensures ResponseOk(rs[k := rs[k].(status := Answered(data))], resp[(rs[k].path, rs[k].iface) := data])
  {
    var rs' := rs[k := rs[k].(status := Answered(data))];
    var resp' := resp[(rs[k].path, rs[k].iface) := data];
    forall key | key in resp' ensures exists m: nat :: IsAnswered(rs', m, key) && rs'[m].status.data == resp'[key] {
      if key == (rs[k].path, rs[k].iface) {
        assert IsAnswered(rs', k, key);
      } else {
        var m: nat :| IsAnswered(rs, m, key) && rs[m].status.data == resp[key];
        assert IsAnswered(rs', m, key);
      }
    }
    forall m: nat, key | IsAnswered(rs', m, key) ensures key in resp' {
      if m != k { assert IsAnswered(rs, m, key); }
    }
  }

  /** A request that is not answered before or after may change without touching the response. */
  lemma OtherKeepsResponse(rs: seq<Request>, resp: map<(string, string), Data>, k: nat, r: Request)
    requires ResponseOk(rs, resp) && k < |rs| && !rs[k].status.Answered? && !r.status.Answered?
    ensures ResponseOk(rs[k := r], resp)
  {
    var rs' := rs[k := r];
    forall key | key in resp ensures exists m: nat :: IsAnswered(rs', m, key) && rs'[m].status.data == resp[key] {
      var m: nat :| IsAnswered(rs, m, key) && rs[m].status.data == resp[key];
      assert IsAnswered(rs', m, key);
    }
    forall m: nat, key | IsAnswered(rs', m, key) ensures key in resp {
      assert IsAnswered(rs, m, key);
    }
  }

  lemma MapperReplyKeepsOk(f: Fetch, rows: seq<Row>)
    requires FetchOk(f) && f.mapper.Calling?
    ensures FetchOk(MapperReplied(f, rows))
  {
    NewRequestsFresh(rows, f.interfaces);
    var g := f.(mapper := Done, requests := f.requests + NewRequests(rows, f.interfaces));
    assert forall k: nat, key :: !IsAnswered(f.requests, k, key) && !IsAnswered(g.requests, k, key);
    DestructKeepsOk(g);
  }

  /** One request moves on; the callback has not run, for the request was pending. */
  lemma RequestKeepsOk(f: Fetch, k: nat, r: Request, resp: map<(string, string), Data>)
    requires FetchOk(f) && k < |f.requests| && Pending(f.requests[k]) && RequestOk(r)
    requires ResponseOk(f.requests[k := r], resp)
    ensures FetchOk(Destruct(f.(requests := f.requests[k := r], respData := resp)))
  {
    assert Outstanding(f);
    DestructKeepsOk(f.(requests := f.requests[k := r], respData := resp));
  }

  lemma RequestMovesOn(r: Request)
    requires RequestOk(r)
    ensures r.status.InFlight? ==> RequestOk(Failed(r)) && RequestLeft(Failed(r)) < RequestLeft(r)
    ensures r.status.Waiting? ==> forall ok :: RequestOk(Retried(r, ok)) && RequestLeft(Retried(r, ok)) < RequestLeft(r)
  {
  }

  lemma StepKeepsOk(f: Fetch, ev: Event)
    requires FetchOk(f)
    ensures FetchOk(Step(f, ev))
  {
    if Enabled(f, ev) {
      match ev
      case CallerReleases => DestructKeepsOk(f.(callerHolds := false));
      case MapperReply(rows) => MapperReplyKeepsOk(f, rows);
      case MapperError =>
        DestructKeepsOk(f.(mapper := if f.mapper.retries == 0 then Done else Pausing(f.mapper.retries)));
      case MapperRetry(ok) =>
        if !ok { DestructKeepsOk(f.(mapper := Done)); }
      case PathReply(k, data) =>
        var r := f.requests[k];
        ReplyKeepsResponse(f.requests, f.respData, k, data);
        RequestKeepsOk(f, k, r.(status := Answered(data)), f.respData[(r.path, r.iface) := data]);
      case PathError(k) =>
        RequestMovesOn(f.requests[k]);
        OtherKeepsResponse(f.requests, f.respData, k, Failed(f.requests[k]));
        RequestKeepsOk(f, k, Failed(f.requests[k]), f.respData);
      case PathRetry(k, ok) =>
        RequestMovesOn(f.requests[k]);
        OtherKeepsResponse(f.requests, f.respData, k, Retried(f.requests[k], ok));
        RequestKeepsOk(f, k, Retried(f.requests[k], ok), f.respData);
    }
  }

  lemma {:induction false} AlwaysOk(types: seq<string>, retries: nat, es: seq<Event>)
    ensures FetchOk(Run(types, retries, es))
  {
    if es == [] {
      var f := Run(types, retries, es);
      assert forall k: nat, key :: !IsAnswered(f.requests, k, key);
    } else {
      AlwaysOk(types, retries, es[..|es| - 1]);
      StepKeepsOk(Run(types, retries, es[..|es| - 1]), es[|es| - 1]);
    }
  }

  /** In every run the callback has run exactly once if the caller has let go and everything has
      settled, and not at all otherwise; it was given precisely the pairs that got a reply. */
  lemma CallbackExactlyOnce(types: seq<string>, retries: nat, es: seq<Event>)
    ensures var f := Run(types, retries, es);
      && |f.callbacks| == (if f.callerHolds || Outstanding(f) then 0 else 1)
      && (f.callbacks != [] ==>
            && (forall key :: key in f.callbacks[0] <==> exists k: nat :: IsAnswered(f.requests, k, key))
            && (forall key :: key in f.callbacks[0] ==>
                  exists k: nat :: IsAnswered(f.requests, k, key) && f.requests[k].status.data == f.callbacks[0][key])
            && (forall k :: 0 <= k < |f.requests| ==> !Pending(f.requests[k])))
  {
    AlwaysOk(types, retries, es);
  }

  /** No request is ever sent more than six times, and one that gave up was sent six times. */
  lemma SixCallsPerRequest(types: seq<string>, retries: nat, es: seq<Event>, k: nat)
    requires k < |Run(types, retries, es).requests|
    ensures var r := Run(types, retries, es).requests[k];
      r.attempts <= 6 && (r.status == GaveUp ==> r.attempts == 6)
  {
    AlwaysOk(types, retries, es);
    assert RequestOk(Run(types, retries, es).requests[k]);
  }

  // ----- Termination -----

  function MapperLeft(m: Mapper): nat {
    match m case Calling(n) => 2 * n + 1 case Pausing(n) => 2 * n case Done => 0
  }

  function RequestLeft(r: Request): nat {
    match r.status case InFlight(n) => 2 * n + 1 case Waiting(n) => 2 * n case _ => 0
  }

  function SumLeft(rs: seq<Request>): nat {
    if rs == [] then 0 else SumLeft(rs[..|rs| - 1]) + RequestLeft(rs[|rs| - 1])
  }

  /** How many completions can still happen without further requests. */
  function Left(f: Fetch): nat {
    (if f.callerHolds then 1 else 0) + MapperLeft(f.mapper) + SumLeft(f.requests)
  }

  lemma {:induction false} SumLeftUpdate(rs: seq<Request>, k: nat, r: Request)
    requires k < |rs|
    ensures SumLeft(rs[k := r]) == SumLeft(rs) - RequestLeft(rs[k]) + RequestLeft(r)
  {
    var n := |rs| - 1;
    if k < n {
      SumLeftUpdate(rs[..n], k, r);
      assert rs[k := r][..n] == rs[..n][k := r];
    } else {
      assert rs[k := r][..n] == rs[..n];
    }
  }

  lemma {:induction false} SumLeftAppend(rs: seq<Request>, more: seq<Request>)
    requires forall r :: r in more ==> r.status == InFlight(MAX_RETRIES)
    ensures SumLeft(rs + more) == SumLeft(rs) + 11 * |more|
  {
    if more == [] {
      assert rs + more == rs;
    } else {
      var n := |more| - 1;
      assert (rs + more)[..|rs| + n] == rs + more[..n];
      assert more[n] in more;
      SumLeftAppend(rs, more[..n]);
    }
  }

  /** A request moves on to a state with less to come. */
  lemma RequestUsesUp(f: Fetch, k: nat, r: Request, resp: map<(string, string), Data>)
    requires k < |f.requests| && RequestLeft(r) < RequestLeft(f.requests[k])
    ensures Left(Destruct(f.(requests := f.requests[k := r], respData := resp))) < Left(f)
  {
    SumLeftUpdate(f.requests, k, r);
  }

  lemma MapperReplyUsesUp(f: Fetch, rows: seq<Row>)
    requires f.mapper.Calling?
    ensures var f', n := MapperReplied(f, rows), |NewRequests(rows, f.interfaces)|;
      |f'.requests| == |f.requests| + n && Left(f') + 1 <= Left(f) + 11 * n
  {
    NewRequestsFresh(rows, f.interfaces);
    SumLeftAppend(f.requests, NewRequests(rows, f.interfaces));
  }

  lemma StepUsesUp(f: Fetch, ev: Event)
    requires QueriesOk(f.mapper, f.requests) && Enabled(f, ev)
    ensures var f' := Step(f, ev);
      |f'.requests| >= |f.requests| && Left(f') + 1 <= Left(f) + 11 * (|f'.requests| - |f.requests|)
  {
    match ev
    case MapperReply(rows) => MapperReplyUsesUp(f, rows);
    case PathReply(k, data) =>
      var r := f.requests[k];
      RequestUsesUp(f, k, r.(status := Answered(data)), f.respData[(r.path, r.iface) := data]);
    case PathError(k) =>
      RequestMovesOn(f.requests[k]);
      RequestUsesUp(f, k, Failed(f.requests[k]), f.respData);
    case PathRetry(k, ok) =>
      RequestMovesOn(f.requests[k]);
      RequestUsesUp(f, k, Retried(f.requests[k], ok), f.respData);
    case _ =>
  }

  lemma {:induction false} StepsAndLeft(types: seq<string>, retries: nat, es: seq<Event>)
    ensures Steps(types, retries, es) + Left(Run(types, retries, es)) <= 12 + 11 * |Run(types, retries, es).requests|
  {
    if es != [] {
      var init := es[..|es| - 1];
      StepsAndLeft(types, retries, init);
      AlwaysOk(types, retries, init);
      if Enabled(Run(types, retries, init), es[|es| - 1]) {
        StepUsesUp(Run(types, retries, init), es[|es| - 1]);
      }
    }
  }

  /** Every run is finite: at most 12 completions for the caller and the mapper query and 11 per
      request. Until the callback has run, some completion is still to come. */
  lemma FetchTerminates(types: seq<string>, retries: nat, es: seq<Event>) returns (next: Event)
    ensures Steps(types, retries, es) <= 12 + 11 * |Run(types, retries, es).requests|
    ensures Run(types, retries, es).callbacks == [] ==> Enabled(Run(types, retries, es), next)
  {
    StepsAndLeft(types, retries, es);
    AlwaysOk(types, retries, es);
    var f := Run(types, retries, es);
    next := CallerReleases;
    if !f.callerHolds {
      if f.mapper.Calling? {
        next := MapperError;
      } else if f.mapper.Pausing? {
        next := MapperRetry(true);
      } else if k: nat :| k < |f.requests| && Pending(f.requests[k]) {
        assert RequestOk(f.requests[k]);
        next := if f.requests[k].status.InFlight? then PathError(k) else PathRetry(k, true);
      }
    }
  }

  // ----- What a mapper reply leads to -----

  /** An interface is wanted when it starts with one of the names. */
  lemma WantedIsPrefix(iface: string, wanted: seq<string>)
    ensures Wanted(iface, wanted) <==> exists w, rest :: w in wanted && iface == w + rest
  {
    if Wanted(iface, wanted) {
      var w :| w in wanted && w <= iface;
      assert iface == w + iface[|w|..];
    }
    if w, rest :| w in wanted && iface == w + rest {
      assert w <= iface;
    }
  }

  lemma {:induction false} InterfacesAdd(
    path: string, owner: string, a: seq<string>, b: seq<string>, wanted: seq<string>)
    ensures RowRequests(path, owner, a + b, wanted) ==
      RowRequests(path, owner, a, wanted) + RowRequests(path, owner, b, wanted)
  {
    if b == [] {
      assert a + b == a;
    } else {
      InterfacesAdd(path, owner, a, b[..|b| - 1], wanted);
      assert (a + b)[..|a + b| - 1] == a + b[..|b| - 1];
    }
  }

  predicate AllOwned(rows: seq<Row>) {
    forall i :: 0 <= i < |rows| ==> rows[i].owners != []
  }

  /** Objects that all have owners, in front of others, add their own requests. */
  lemma {:induction false} RowsAdd(a: seq<Row>, b: seq<Row>, wanted: seq<string>)
    requires AllOwned(a)
    ensures NewRequests(a + b, wanted) == NewRequests(a, wanted) + NewRequests(b, wanted)
  {
    if a == [] {
      assert a + b == b;
    } else {
      RowsAdd(a[1..], b, wanted);
      assert (a + b)[0] == a[0] && (a + b)[1..] == a[1..] + b;
    }
  }

  /** An object without owners ends the scan: nothing behind it is requested. */
  lemma OwnerlessEndsScan(a: seq<Row>, path: string, b: seq<Row>, wanted: seq<string>)
    requires AllOwned(a)
    ensures NewRequests(a + [Row(path, [])] + b, wanted) == NewRequests(a, wanted)
  {
    var rest := [Row(path, [])] + b;
    assert a + [Row(path, [])] + b == a + rest && rest[0] == Row(path, []);
    RowsAdd(a, rest, wanted);
  }

  /** One object: each interface of its first owner that starts with a wanted name is requested from
      that owner, for the first of six times; other owners do not matter. */
  lemma OneObject(path: string, owner: string, iface: string, others: seq<(string, seq<string>)>, wanted: seq<string>)
    ensures NewRequests(Object(path, owner, [iface], others), wanted) ==
      if Wanted(iface, wanted) then [Request(path, iface, owner, 1, InFlight(5))] else []
    ensures NewRequests(Object(path, owner, [], others), wanted) == []
  {
    ObjectIsRow(path, owner, [iface], others, wanted);
    ObjectIsRow(path, owner, [], others, wanted);
    assert [iface][..0] == [] && RowRequests(path, owner, [], wanted) == [];
  }

  function Object(path: string, owner: string, ifaces: seq<string>, others: seq<(string, seq<string>)>): seq<Row> {
    [Row(path, [(owner, ifaces)] + others)]
  }

  /** The interfaces of an object are looked at one by one, in order. */
  lemma ObjectAdds(path: string, owner: string, a: seq<string>, b: seq<string>,
                   others: seq<(string, seq<string>)>, wanted: seq<string>)
    ensures NewRequests(Object(path, owner, a + b, others), wanted) ==
      NewRequests(Object(path, owner, a, others), wanted) + NewRequests(Object(path, owner, b, others), wanted)
  {
    InterfacesAdd(path, owner, a, b, wanted);
    ObjectIsRow(path, owner, a + b, others, wanted);
    ObjectIsRow(path, owner, a, others, wanted);
    ObjectIsRow(path, owner, b, others, wanted);
  }

  lemma ObjectIsRow(path: string, owner: string, ifaces: seq<string>,
                    others: seq<(string, seq<string>)>, wanted: seq<string>)
    ensures NewRequests(Object(path, owner, ifaces, others), wanted) == RowRequests(path, owner, ifaces, wanted)
  {
    var rows := Object(path, owner, ifaces, others);
    assert rows[0].owners[0] == (owner, ifaces) && rows[1..] == [];
    assert NewRequests([], wanted) == [];
  }

  /** The fetch begins with one query, held by the caller, with at most five retries. */
  lemma FirstQuery(types: seq<string>, retries: nat)
    ensures var f := Run(types, retries, []);
      && f.mapper == Calling(if retries > 5 then 5 else retries) && f.callerHolds
      && f.requests == [] && f.respData == map[] && f.callbacks == []
  {
  }

  /** An error reply to the mapper query pauses while retries are left, and the pause is followed by
      another query with one retry less, unless its timer fails. */
  lemma MapperErrorEffect(f: Fetch)
    requires f.mapper.Calling? && f.mapper.retries <= 5
    ensures f.mapper.retries > 0 ==>
      var paused := Step(f, MapperError);
      && paused == f.(mapper := Pausing(f.mapper.retries))
      && Step(paused, MapperRetry(true)).mapper == Calling(f.mapper.retries - 1)
      && Step(paused, MapperRetry(false)).mapper == Done
    ensures f.mapper.retries == 0 ==> Step(f, MapperError).mapper == Done
  {
  }

  // ----- What a mapper retry asks for -----

  /** How many mapper retries have run. */
  function MapperRetries(types: seq<string>, retries: nat, es: seq<Event>): nat {
    if es == [] then 0
    else
      var init, ev := es[..|es| - 1], es[|es| - 1];
      MapperRetries(types, retries, init) +
      if ev == MapperRetry(true) && Enabled(Run(types, retries, init), ev) then 1 else 0
  }

  /** At most five mapper retries run, and never more than the caller allowed. */
  lemma {:induction false} MapperRetriesBounded(types: seq<string>, retries: nat, es: seq<Event>)
    ensures MapperRetries(types, retries, es) <= retries && MapperRetries(types, retries, es) <= 5
    ensures var f := Run(types, retries, es);
      !f.mapper.Done? ==> MapperRetries(types, retries, es) + f.mapper.retries <= (if retries > 5 then 5 else retries)
  {
    if es != [] {
      MapperRetriesBounded(types, retries, es[..|es| - 1]);
      RetriesGoDown(Run(types, retries, es[..|es| - 1]), es[|es| - 1]);
    }
  }

  lemma RetriesGoDown(f: Fetch, ev: Event)
    ensures var f', n := Step(f, ev), if ev == MapperRetry(true) && Enabled(f, ev) then 1 else 0;
      && (n == 1 ==> !f.mapper.Done? && f.mapper.retries > 0)
      && (!f'.mapper.Done? ==> !f.mapper.Done? && f'.mapper.retries + n <= f.mapper.retries)
  {
  }

  function PrefixedTimes(types: seq<string>, n: nat): seq<string> {
    if n == 0 then types else Prefixed(PrefixedTimes(types, n - 1))
  }

  lemma {:induction false} InterfacesAfter(types: seq<string>, retries: nat, es: seq<Event>)
    ensures Run(types, retries, es).interfaces == PrefixedTimes(types, 1 + MapperRetries(types, retries, es))
  {
    if es == [] {
      assert PrefixedTimes(types, 1) == Prefixed(PrefixedTimes(types, 0));
    } else {
      InterfacesAfter(types, retries, es[..|es| - 1]);
      InterfacesStep(Run(types, retries, es[..|es| - 1]), es[|es| - 1]);
    }
  }

  lemma InterfacesStep(f: Fetch, ev: Event)
    ensures Step(f, ev).interfaces ==
      if ev == MapperRetry(true) && Enabled(f, ev) then Prefixed(f.interfaces) else f.interfaces
  {
  }

  /** A string of `n` copies of the prefix. */
  function Prefixes(n: nat): string {
    if n == 0 then "" else CONFIG_PREFIX + Prefixes(n - 1)
  }

  lemma {:induction false} PrefixedTimesAt(types: seq<string>, n: nat)
    ensures |PrefixedTimes(types, n)| == |types|
    ensures forall i :: 0 <= i < |types| ==> PrefixedTimes(types, n)[i] == Prefixes(n) + types[i]
  {
    if n > 0 { PrefixedTimesAt(types, n - 1); }
  }

  lemma {:induction false} ShortestType(types: seq<string>) returns (k: nat)
    requires types != []
    ensures k < |types| && forall i :: 0 <= i < |types| ==> |types[k]| <= |types[i]|
  {
    k := 0;
    if |types| > 1 {
      var m := ShortestType(types[1..]);
      if |types[m + 1]| < |types[0]| { k := m + 1; }
      assert forall i :: 1 <= i < |types| ==> types[i] == types[1..][i - 1];
    }
  }

  /** A mapper reply that offers one interface of one object. */
  function Offer(iface: string): seq<Row> {
    [Row("/object", [("owner", [iface])])]
  }

  lemma OfferIsTaken(iface: string, wanted: seq<string>)
    ensures NewRequests(Offer(iface), wanted) ==
      if Wanted(iface, wanted) then [Request("/object", iface, "owner", 1, InFlight(MAX_RETRIES))] else []
  {
    assert [iface][..0] == [] && Offer(iface)[1..] == [];
    assert RowRequests("/object", "owner", [], wanted) == [];
  }

  lemma SameRequestsUnlessPrefixed(types: seq<string>, n: nat)
    ensures (forall rows ::
              NewRequests(rows, PrefixedTimes(types, 1 + n)) == NewRequests(rows, PrefixedTimes(types, 1)))
      <==> n == 0 || types == []
  {
    PrefixedTimesAt(types, 1 + n);
    PrefixedTimesAt(types, 1);
    if n == 0 || types == [] {
      assert PrefixedTimes(types, 1 + n) == PrefixedTimes(types, 1);
    } else {
      var k := ShortestType(types);
      var iface := CONFIG_PREFIX + types[k];
      NotWantedAfterRetry(types, k, n);
      WantedAtFirst(types, k);
      OfferIsTaken(iface, PrefixedTimes(types, 1));
      OfferIsTaken(iface, PrefixedTimes(types, 1 + n));
    }
  }

  /** The interfaces that the caller asked for are the ones requested, whatever the mapper replies,
      exactly when no mapper retry has run (or nothing was asked for). */
  lemma RetryForgetsTypes(types: seq<string>, retries: nat, es: seq<Event>)
    ensures var f := Run(types, retries, es);
      (forall rows :: NewRequests(rows, f.interfaces) == NewRequests(rows, Prefixed(types)))
      <==> MapperRetries(types, retries, es) == 0 || types == []
  {
    InterfacesAfter(types, retries, es);
    InterfacesAfter(types, retries, []);
    SameRequestsUnlessPrefixed(types, MapperRetries(types, retries, es));
  }

  lemma WantedAtFirst(types: seq<string>, k: nat)
    requires k < |types|
    ensures Wanted(CONFIG_PREFIX + types[k], Prefixed(types)) && Prefixed(types) == PrefixedTimes(types, 1)
  {
    assert PrefixedTimes(types, 1) == Prefixed(PrefixedTimes(types, 0));
    assert Prefixed(types)[k] <= CONFIG_PREFIX + types[k] && Prefixed(types)[k] in Prefixed(types);
  }

  lemma {:induction false} PrefixesAtLeastTwo(n: nat)
    requires n >= 1
    ensures |Prefixes(1 + n)| > |CONFIG_PREFIX|
  {
    if n > 1 { PrefixesAtLeastTwo(n - 1); } else { assert Prefixes(2) == CONFIG_PREFIX + Prefixes(1); }
  }

  lemma NotWantedAfterRetry(types: seq<string>, k: nat, n: nat)
    requires n >= 1 && k < |types| && forall i :: 0 <= i < |types| ==> |types[k]| <= |types[i]|
    ensures !Wanted(CONFIG_PREFIX + types[k], PrefixedTimes(types, 1 + n))
  {
    PrefixedTimesAt(types, 1 + n);
    PrefixesAtLeastTwo(n);
    var ws := PrefixedTimes(types, 1 + n);
    forall w | w in ws ensures !(w <= CONFIG_PREFIX + types[k]) {
      var i :| 0 <= i < |ws| && ws[i] == w;
      assert |w| > |CONFIG_PREFIX + types[k]|;
    }
  }

  /** One mapper error is enough: the reply to the retry offers the configuration that was asked
      for, nothing is requested, and the callback gets nothing. Without the error it is requested. */
  lemma LostAfterRetry(types: seq<string>, retries: nat, k: nat)
    requires retries > 0 && k < |types| && forall i :: 0 <= i < |types| ==> |types[k]| <= |types[i]|
    ensures var reply := MapperReply(Offer(CONFIG_PREFIX + types[k]));
      var f := Run(types, retries, [MapperError, MapperRetry(true), reply, CallerReleases]);
      && f.requests == [] && f.callbacks == [map[]]
      && |Run(types, retries, [reply]).requests| == 1
  {
    var iface := CONFIG_PREFIX + types[k];
    WantedAtFirst(types, k);
    NotWantedAfterRetry(types, k, 1);
    OfferIsTaken(iface, Prefixed(types));
    OfferIsTaken(iface, PrefixedTimes(types, 2));
    assert PrefixedTimes(types, 2) == Prefixed(PrefixedTimes(types, 1));
    RunOfOne(types, retries, MapperReply(Offer(iface)));
    RunOfFour(types, retries, [MapperError, MapperRetry(true), MapperReply(Offer(iface)), CallerReleases]);
    LostSteps(Begin(types, retries), Offer(iface));
  }

  lemma LostSteps(f: Fetch, rows: seq<Row>)
    requires f.mapper.Calling? && f.mapper.retries > 0 && f == Fetch(true, f.interfaces, f.mapper, [], map[], [])
    requires NewRequests(rows, Prefixed(f.interfaces)) == []
    ensures var f' := Step(Step(Step(Step(f, MapperError), MapperRetry(true)), MapperReply(rows)), CallerReleases);
      f'.requests == [] && f'.callbacks == [map[]]
  {
    var f2 := Step(Step(f, MapperError), MapperRetry(true));
    assert f2 == f.(interfaces := Prefixed(f.interfaces), mapper := Calling(Capped(f.mapper.retries - 1)));
    var f3 := Step(f2, MapperReply(rows));
    assert f3 == f2.(mapper := Done);
  }

  lemma RunOfOne(types: seq<string>, retries: nat, ev: Event)
    ensures Run(types, retries, [ev]) == Step(Begin(types, retries), ev)
  {
    assert [ev][..0] == [];
  }

  lemma RunOfFour(types: seq<string>, retries: nat, es: seq<Event>)
    requires |es| == 4
    ensures Run(types, retries, es) == Step(Step(Step(Step(Begin(types, retries), es[0]), es[1]), es[2]), es[3])
  {
    assert es[..3][..2] == es[..2] && es[..2][..1] == es[..1] && es[..1][..0] == [];
    assert Run(types, retries, es[..1]) == Step(Run(types, retries, []), es[0]);
    assert Run(types, retries, es[..2]) == Step(Run(types, retries, es[..1]), es[1]);
    assert Run(types, retries, es[..3]) == Step(Run(types, retries, es[..2]), es[2]);
  }
}
