/** `GetSensorConfiguration` of src/Utils.hpp: one mapper query, one property query per matching
    interface, retries for both, and a callback from the destructor. */
module ConfigFetch {
  const MAX_RETRIES := 5
  const CONFIG_PREFIX := "xyz.openbmc_project.Configuration."

  type Data = map<string, string>

  /** What the event loop still owes the mapper query: its reply, or the retry timer. */
  datatype Mapper = Calling(retries: nat) | Pausing(retries: nat) | Done

  /** The same for one property query, and how it ended: with a reply, after the last retry, or
      because its retry timer reported an error. */
  datatype Status = InFlight(retries: nat) | Waiting(retries: nat) | Answered(data: Data) | GaveUp | TimerBroken

  datatype Request = Request(path: string, iface: string, owner: string, attempts: nat, status: Status)

  datatype Row = Row(path: string, owners: seq<(string, seq<string>)>)

  /** Every outstanding operation holds a reference to the object, and so does the caller until
      it lets go; `interfaces` is what the mapper query asks for and filters by; `callbacks`
      collects what the destructor handed to the callback. */
  datatype Fetch = Fetch(
    callerHolds: bool, interfaces: seq<string>, mapper: Mapper, requests: seq<Request>,
    respData: map<(string, string), Data>, callbacks: seq<map<(string, string), Data>>)

  // ----- Specification -----

  /** `configInterfaceName` of every type. */
  function Prefixed(types: seq<string>): seq<string> {
    seq(|types|, i requires 0 <= i < |types| => CONFIG_PREFIX + types[i])
  }

  function Capped(retries: nat): nat {
    if retries > MAX_RETRIES then MAX_RETRIES else retries
  }

  function Begin(types: seq<string>, retries: nat): Fetch {
    Fetch(true, Prefixed(types), Calling(Capped(retries)), [], map[], [])
  }

  predicate Pending(r: Request) {
    r.status.InFlight? || r.status.Waiting?
  }

  predicate Outstanding(f: Fetch) {
    !f.mapper.Done? || exists k :: 0 <= k < |f.requests| && Pending(f.requests[k])
  }

  /** The last reference is gone: the destructor runs. */
  function Destruct(f: Fetch): Fetch {
    if f.callerHolds || Outstanding(f) then f else f.(callbacks := f.callbacks + [f.respData])
  }

  predicate Wanted(iface: string, wanted: seq<string>) {
    exists w :: w in wanted && w <= iface
  }

  function RowRequests(path: string, owner: string, ifaces: seq<string>, wanted: seq<string>): seq<Request> {
    if ifaces == [] then []
    else
      RowRequests(path, owner, ifaces[..|ifaces| - 1], wanted) +
      var iface := ifaces[|ifaces| - 1];
      if Wanted(iface, wanted) then [Request(path, iface, owner, 1, InFlight(MAX_RETRIES))] else []
  }

  /** The requests a mapper reply leads to. A row without owners ends the scan: the rows after
      it are not looked at. */
  function NewRequests(rows: seq<Row>, wanted: seq<string>): seq<Request> {
    if rows == [] || rows[0].owners == [] then []
    else RowRequests(rows[0].path, rows[0].owners[0].0, rows[0].owners[0].1, wanted) + NewRequests(rows[1..], wanted)
  }

  function MapperReplied(f: Fetch, rows: seq<Row>): Fetch {
    Destruct(f.(mapper := Done, requests := f.requests + NewRequests(rows, f.interfaces)))
  }

  function MapperFailed(f: Fetch): Fetch
    requires f.mapper.Calling?
  {
    Destruct(f.(mapper := if f.mapper.retries == 0 then Done else Pausing(f.mapper.retries)))
  }

  /** A retry calls `getConfiguration` with the interface names, which prefixes them once more. */
  function MapperTimer(f: Fetch, ok: bool): Fetch
    requires f.mapper.Pausing? && f.mapper.retries > 0
  {
    if ok then f.(interfaces := Prefixed(f.interfaces), mapper := Calling(Capped(f.mapper.retries - 1)))
    else Destruct(f.(mapper := Done))
  }

  /** What becomes of a request on an error reply. */
  function Failed(r: Request): Request
    requires r.status.InFlight?
  {
    r.(status := if r.status.retries == 0 then GaveUp else Waiting(r.status.retries))
  }

  /** What becomes of a request when its retry timer ends. */
  function Retried(r: Request, ok: bool): Request
    requires r.status.Waiting? && r.status.retries > 0
  {
    if ok then r.(attempts := r.attempts + 1, status := InFlight(r.status.retries - 1))
    else r.(status := TimerBroken)
  }

  function PathReplied(f: Fetch, k: nat, data: Data): Fetch
    requires k < |f.requests|
  {
    var r := f.requests[k];
    Destruct(f.(requests := f.requests[k := r.(status := Answered(data))],
                respData := f.respData[(r.path, r.iface) := data]))
  }

  function PathFailed(f: Fetch, k: nat): Fetch
    requires k < |f.requests| && f.requests[k].status.InFlight?
  {
    Destruct(f.(requests := f.requests[k := Failed(f.requests[k])]))
  }

  function PathTimer(f: Fetch, k: nat, ok: bool): Fetch
    requires k < |f.requests| && f.requests[k].status.Waiting? && f.requests[k].status.retries > 0
  {
    Destruct(f.(requests := f.requests[k := Retried(f.requests[k], ok)]))
  }

  // ----- The source's own form -----

  class GetSensorConfiguration {
    var callerHolds: bool
    var interfaces: seq<string>
    var mapper: Mapper
    var requests: seq<Request>
    var respData: map<(string, string), Data>
    var callbacks: seq<map<(string, string), Data>>

    ghost function State(): Fetch reads this {
      Fetch(callerHolds, interfaces, mapper, requests, respData, callbacks)
    }

    /** The constructor followed by the caller's `getConfiguration(types, retries)`. */
    constructor (types: seq<string>, retries: nat)
      ensures State() == Begin(types, retries)
    {
      callerHolds, requests, respData, callbacks := true, [], map[], [];
      interfaces, mapper := [], Done;
      new;
      GetConfiguration(types, retries);
    }

    /** `getConfiguration`: prefixes the types and calls the mapper. */
    method GetConfiguration(types: seq<string>, retries: nat)
      modifies this`interfaces, this`mapper
      ensures interfaces == Prefixed(types) && mapper == Calling(Capped(retries))
    {
      var left := if retries > MAX_RETRIES then MAX_RETRIES else retries;
      interfaces := [];
      for i := 0 to |types|
        invariant interfaces == Prefixed(types[..i])
      {
        interfaces := interfaces + [CONFIG_PREFIX + types[i]];
      }
      assert types[..|types|] == types;
      mapper := Calling(left);
    }

    /** After each handler its reference goes away; with the last one the destructor runs. */
    method DropReference()
      modifies this`callbacks
      ensures State() == Destruct(old(State()))
    {
      if callerHolds || !mapper.Done? {
        return;
      }
      for k := 0 to |requests|
        invariant forall j :: 0 <= j < k ==> !Pending(requests[j])
        invariant callbacks == old(callbacks)
      {
        if requests[k].status.InFlight? || requests[k].status.Waiting? {
          return;
        }
      }
      callbacks := callbacks + [respData];
    }

    method CallerReleases()
      modifies this
      ensures State() == Destruct(old(State()).(callerHolds := false))
    {
      callerHolds := false;
      DropReference();
    }

    method GetPath(path: string, iface: string, owner: string)
      modifies this`requests
      ensures requests == old(requests) + [Request(path, iface, owner, 1, InFlight(MAX_RETRIES))]
    {
      requests := requests + [Request(path, iface, owner, 1, InFlight(MAX_RETRIES))];
    }

    method OnMapperReply(rows: seq<Row>)
      modifies this
      ensures State() == MapperReplied(old(State()), rows)
    {
      mapper := Done;
      ScanRows(rows);
      DropReference();
    }

    method ScanRows(rows: seq<Row>)
      modifies this`requests
      ensures requests == old(requests) + NewRequests(rows, interfaces)
    {
      var i := 0;
      assert rows[0..] == rows;
      while i < |rows|
        invariant i <= |rows|
        invariant requests + NewRequests(rows[i..], interfaces) == old(requests) + NewRequests(rows, interfaces)
      {
        if rows[i].owners == [] {
          return;
        }
        var owner := rows[i].owners[0].0;
        ScanInterfaces(rows[i].path, owner, rows[i].owners[0].1);
        assert rows[i..][1..] == rows[i + 1..];
        i := i + 1;
      }
    }

    method ScanInterfaces(path: string, owner: string, ifaces: seq<string>)
      modifies this`requests
      ensures requests == old(requests) + RowRequests(path, owner, ifaces, interfaces)
    {
      for j := 0 to |ifaces|
        invariant requests == old(requests) + RowRequests(path, owner, ifaces[..j], interfaces)
      {
        assert ifaces[..j + 1][..j] == ifaces[..j];
        if Wanted(ifaces[j], interfaces) {
          GetPath(path, ifaces[j], owner);
        }
      }
      assert ifaces[..|ifaces|] == ifaces;
    }

    method OnMapperError()
      requires mapper.Calling?
      modifies this
      ensures State() == MapperFailed(old(State()))
    {
      mapper := if mapper.retries == 0 then Done else Pausing(mapper.retries);
      DropReference();
    }

    method OnMapperTimer(ok: bool)
      requires mapper.Pausing? && mapper.retries > 0
      modifies this
      ensures State() == MapperTimer(old(State()), ok)
    {
      if !ok {
        mapper := Done;
        DropReference();
        return;
      }
      GetConfiguration(interfaces, mapper.retries - 1);
    }

    method OnPathReply(k: nat, data: Data)
      requires k < |requests|
      modifies this
      ensures State() == PathReplied(old(State()), k, data)
    {
      var r := requests[k];
      respData := respData[(r.path, r.iface) := data];
      requests := requests[k := r.(status := Answered(data))];
      DropReference();
    }

    method OnPathError(k: nat)
      requires k < |requests| && requests[k].status.InFlight?
      modifies this
      ensures State() == PathFailed(old(State()), k)
    {
      var r := requests[k];
      requests := requests[k := r.(status := if r.status.retries == 0 then GaveUp else Waiting(r.status.retries))];
      DropReference();
    }

    method OnPathTimer(k: nat, ok: bool)
      requires k < |requests| && requests[k].status.Waiting? && requests[k].status.retries > 0
      modifies this
      ensures State() == PathTimer(old(State()), k, ok)
    {
      var r := requests[k];
      requests := requests[k :=
        if ok then r.(attempts := r.attempts + 1, status := InFlight(r.status.retries - 1))
        else r.(status := TimerBroken)];
      DropReference();
    }
  }
}
