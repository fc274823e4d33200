// Correlation of Winsock trace events with the sockets they belong to:
// `metadata` of scripts/rust-port/http_winsock_metadata.py.
module Winsock {
  import opened Wrappers

  datatype Field = Process | Endpoint | UserModePid | ProcessId | SocketType | Protocol | EnterExit | Status | Plain(name: string)

  datatype Descriptor = Descriptor(version: int, level: int, task: int, opcode: int)

  // An event of the trace, after its XML was read: of another provider, with
  // an unusable field, or with its fields. A descriptor or timestamp that
  // cannot be read is None.
  datatype Event =
    | Foreign
    | Broken
    | Event(id: int, descriptor: Option<Descriptor>, data: map<Field, int>, stamp: Option<string>)

  datatype Record = Record(pid: int, endpointId: nat, time: string, eventId: int, descriptor: Descriptor, data: map<Field, int>)

  const LEGACY: set<Field> := {Process, Endpoint, UserModePid, SocketType, Protocol}
  const MODERN: set<Field> := {Process, Endpoint, ProcessId, SocketType, Protocol, EnterExit, Status}

  // What an event means for the correlation.
  datatype Kind =
    | Ignored                                          // another provider, or a creation that did not complete
    | Create(process: int, endpoint: int, pid: int)
    | Use(where: Option<int>, socket: Option<int>)

  function Get(data: map<Field, int>, f: Field): Option<int> { if f in data then Some(data[f]) else None }

  function KindOf(ev: Event): Result<Kind>
  {
    match ev
    case Foreign => Ok(Ignored)
    case Broken => Err(ValueError)
    case Event(id, descriptor, data, _) =>
      if id == 1 then
        if LEGACY <= data.Keys then Ok(Create(data[Process], data[Endpoint], data[UserModePid])) else Err(ValueError)
      else if id == 1000 && descriptor.None? then Err(ValueError)
      else if id == 1000 && descriptor.value == Descriptor(0, 4, 1000, 10) then
        if !(MODERN <= data.Keys) then Err(ValueError)
        else if data[EnterExit] != 1 || data[Status] != 0 then Ok(Ignored)
        else Ok(Create(data[Process], data[Endpoint], data[ProcessId]))
      else Ok(Use(Get(data, Process), Get(data, Endpoint)))
  }

  // ---------------------------------------------------------------- the pass

  datatype State = State(owners: map<int, int>, endpoints: map<(int, int), nat>, records: seq<Record>, seen: set<int>)

  const EMPTY: State := State(map[], map[], [], {})

  // The owner and the socket of an event after it was taken into account.
  function Owner(st: State, k: Kind): Option<int>
  {
    match k
    case Ignored => None
    case Create(p, _, pid) => Some(pid)
    case Use(None, _) => None
    case Use(Some(p), _) => if p in st.owners then Some(st.owners[p]) else None
  }

  function Note(pids: set<int>, st: State, k: Kind): State
  {
    match k
    case Ignored => st
    case Use(_, _) => st
    case Create(p, e, pid) =>
      st.(owners := st.owners[p := pid],
          endpoints := if pid in pids then st.endpoints[(p, e) := |st.records| + 1] else st.endpoints)
  }

  function SocketId(st: State, k: Kind): Option<nat>
  {
    match k
    case Ignored => None
    case Create(p, e, _) => if (p, e) in st.endpoints then Some(st.endpoints[(p, e)]) else None
    case Use(p, e) =>
      if p.Some? && e.Some? && (p.value, e.value) in st.endpoints then Some(st.endpoints[(p.value, e.value)]) else None
  }

  function Step(pids: set<int>, st: State, ev: Event): Result<State>
  {
    match KindOf(ev)
    case Err(e) => Err(e)
    case Ok(k) =>
      var noted := Note(pids, st, k);
      match Owner(st, k)
      case None => Ok(noted)
      case Some(pid) =>
        if pid !in pids then Ok(noted)
        else
          match SocketId(noted, k)
          case None => Err(ValueError)
          case Some(id) =>
            if ev.stamp.None? || ev.descriptor.None? then Err(ValueError)
            else Ok(noted.(records := noted.records + [Publish(ev, pid, id)], seen := noted.seen + {pid}))
  }

  // Kernel addresses never leave; the socket id keeps the join.
  function Publish(ev: Event, pid: int, id: nat): Record
    requires ev.Event? && ev.stamp.Some? && ev.descriptor.Some?
  {
    Record(pid, id, ev.stamp.value, ev.id, ev.descriptor.value, ev.data - {Process, Endpoint})
  }

  function Run(pids: set<int>, evs: seq<Event>): Result<State>
  {
    if evs == [] then Ok(EMPTY)
    else
      match Run(pids, evs[..|evs| - 1])
      case Err(e) => Err(e)
      case Ok(st) => Step(pids, st, evs[|evs| - 1])
  }

  function Metadata(pids: set<int>, evs: seq<Event>): Result<seq<Record>>
  {
    match Run(pids, evs)
    case Err(e) => Err(e)
    case Ok(st) => if st.seen == pids then Ok(st.records) else Err(ValueError)
  }

  // The pass as it runs, with its two maps updated in place.
  method Correlate(pids: set<int>, events: seq<Event>) returns (r: Result<seq<Record>>)
    ensures r == Metadata(pids, events)
  {
    var owners: map<int, int>, endpoints: map<(int, int), nat> := map[], map[];
    var records: seq<Record>, seen: set<int> := [], {};
    var i := 0;
    while i < |events|
      invariant 0 <= i <= |events|
      invariant Run(pids, events[..i]) == Ok(State(owners, endpoints, records, seen))
    {
      var ev := events[i];
      assert events[..i + 1][..i] == events[..i];
      var kind := KindOf(ev);
      if kind.Err? {
        RunFails(pids, events, i + 1);
        return Err(kind.error);
      }
      var owner := Owner(State(owners, endpoints, records, seen), kind.value);
      if kind.value.Create? {
        var Create(p, e, pid) := kind.value;
        owners := owners[p := pid];
        if pid in pids {
          endpoints := endpoints[(p, e) := |records| + 1];
        }
      }
      if owner.Some? && owner.value in pids {
        var id := SocketId(State(owners, endpoints, records, seen), kind.value);
        if id.None? || ev.stamp.None? || ev.descriptor.None? {
          RunFails(pids, events, i + 1);
          return Err(ValueError);
        }
        records := records + [Publish(ev, owner.value, id.value)];
        seen := seen + {owner.value};
      }
      i := i + 1;
    }
    assert events[..|events|] == events;
    return if seen == pids then Ok(records) else Err(ValueError);
  }

  // An event that stops the pass stops it for the whole trace.
  lemma {:induction false} RunFails(pids: set<int>, evs: seq<Event>, n: nat)
    requires n <= |evs| && Run(pids, evs[..n]).Err?
    ensures Run(pids, evs) == Run(pids, evs[..n])
    decreases |evs|
  {
    if n == |evs| {
      assert evs[..n] == evs;
    } else {
      var front := evs[..|evs| - 1];
      assert front[..n] == evs[..n];
      RunFails(pids, front, n);
    }
  }
}
