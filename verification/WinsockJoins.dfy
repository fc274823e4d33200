// What the published socket ids mean, in terms of the trace alone:
// scripts/rust-port/http_winsock_metadata.py.
module WinsockJoins {
  import opened Wrappers
  import opened Winsock

  // ---------------------------------------------------------------- the trace, without the maps

  function Meaning(ev: Event): Kind
  {
    match KindOf(ev) case Ok(k) => k case Err(_) => Ignored
  }

  // The last of the first n events that creates a socket for the process.
  function LastOwner(evs: seq<Event>, n: nat, process: int): (r: Option<nat>)
    requires n <= |evs|
    ensures r.Some? ==> r.value < n
  {
    if n == 0 then None
    else
      match Meaning(evs[n - 1])
      case Create(p, _, _) => if p == process then Some(n - 1) else LastOwner(evs, n - 1, process)
      case _ => LastOwner(evs, n - 1, process)
  }

  // The last of the first n events in which a traced server creates the socket.
  function LastCreation(pids: set<int>, evs: seq<Event>, n: nat, process: int, endpoint: int): (r: Option<nat>)
    requires n <= |evs|
    ensures r.Some? ==> r.value < n
  {
    if n == 0 then None
    else
      match Meaning(evs[n - 1])
      case Create(p, e, pid) =>
        if p == process && e == endpoint && pid in pids then Some(n - 1)
        else LastCreation(pids, evs, n - 1, process, endpoint)
      case _ => LastCreation(pids, evs, n - 1, process, endpoint)
  }

  function CreatorPid(evs: seq<Event>, i: nat): int
    requires i < |evs|
  {
    match Meaning(evs[i]) case Create(_, _, pid) => pid case _ => 0
  }

  // The process an event belongs to, as of the event itself.
  function PidOf(evs: seq<Event>, i: nat): Option<int>
    requires i < |evs|
  {
    match Meaning(evs[i])
    case Ignored => None
    case Create(_, _, pid) => Some(pid)
    case Use(None, _) => None
    case Use(Some(p), _) =>
      match LastOwner(evs, i, p) case None => None case Some(c) => Some(CreatorPid(evs, c))
  }

  predicate IsPublished(pids: set<int>, evs: seq<Event>, i: nat)
    requires i < |evs|
  {
    PidOf(evs, i).Some? && PidOf(evs, i).value in pids
  }

  // The published events among the first n, in order.
  function Sources(pids: set<int>, evs: seq<Event>, n: nat): (r: seq<nat>)
    requires n <= |evs|
    ensures |r| <= n
    ensures forall j :: 0 <= j < |r| ==> r[j] < n && IsPublished(pids, evs, r[j])
  {
    if n == 0 then []
    else Sources(pids, evs, n - 1) + if IsPublished(pids, evs, n - 1) then [n - 1] else []
  }

  // The creation an event is joined to: its own, or the last one of its socket.
  function CreationOf(pids: set<int>, evs: seq<Event>, i: nat): (r: Option<nat>)
    requires i < |evs|
    ensures r.Some? ==> r.value <= i
  {
    match Meaning(evs[i])
    case Ignored => None
    case Create(p, e, _) => LastCreation(pids, evs, i + 1, p, e)
    case Use(p, e) => if p.Some? && e.Some? then LastCreation(pids, evs, i + 1, p.value, e.value) else None
  }

  // One more than the number of events published before.
  function IdOf(pids: set<int>, evs: seq<Event>, c: nat): nat
    requires c <= |evs|
  {
    |Sources(pids, evs, c)| + 1
  }

  // What the record of a published event says.
  ghost predicate Describes(pids: set<int>, evs: seq<Event>, i: nat, r: Record)
    requires i < |evs|
  {
    && evs[i].Event? && evs[i].stamp == Some(r.time) && evs[i].descriptor == Some(r.descriptor)
    && r.eventId == evs[i].id && r.data == evs[i].data - {Process, Endpoint}
    && PidOf(evs, i) == Some(r.pid)
    && CreationOf(pids, evs, i).Some? && r.endpointId == IdOf(pids, evs, CreationOf(pids, evs, i).value)
  }

  // ---------------------------------------------------------------- the maps say the same

  ghost predicate OwnersAgree(evs: seq<Event>, n: nat, owners: map<int, int>)
    requires n <= |evs|
  {
    forall p ::
      && (p in owners <==> LastOwner(evs, n, p).Some?)
      && (p in owners ==> LastOwner(evs, n, p).value < n && owners[p] == CreatorPid(evs, LastOwner(evs, n, p).value))
  }

  ghost predicate EndpointsAgree(pids: set<int>, evs: seq<Event>, n: nat, endpoints: map<(int, int), nat>)
    requires n <= |evs|
  {
    forall p, e ::
      && ((p, e) in endpoints <==> LastCreation(pids, evs, n, p, e).Some?)
      && ((p, e) in endpoints ==>
            LastCreation(pids, evs, n, p, e).value < n
            && endpoints[(p, e)] == IdOf(pids, evs, LastCreation(pids, evs, n, p, e).value))
  }

  ghost predicate RecordsAgree(pids: set<int>, evs: seq<Event>, n: nat, records: seq<Record>)
    requires n <= |evs|
  {
    var src := Sources(pids, evs, n);
    |records| == |src| && forall j :: 0 <= j < |src| ==> Describes(pids, evs, src[j], records[j])
  }

  ghost predicate Agrees(pids: set<int>, evs: seq<Event>, n: nat, st: State)
    requires n <= |evs|
  {
    && OwnersAgree(evs, n, st.owners)
    && EndpointsAgree(pids, evs, n, st.endpoints)
    && RecordsAgree(pids, evs, n, st.records)
    && st.seen == set r | r in st.records :: r.pid
  }

  lemma {:induction false} NoteOwners(pids: set<int>, evs: seq<Event>, n: nat, st: State)
    requires n < |evs| && OwnersAgree(evs, n, st.owners)
    ensures OwnersAgree(evs, n + 1, Note(pids, st, Meaning(evs[n])).owners)
  {
  }

  lemma {:induction false} NoteEndpoints(pids: set<int>, evs: seq<Event>, n: nat, st: State)
    requires n < |evs| && EndpointsAgree(pids, evs, n, st.endpoints) && RecordsAgree(pids, evs, n, st.records)
    ensures EndpointsAgree(pids, evs, n + 1, Note(pids, st, Meaning(evs[n])).endpoints)
  {
  }

  lemma {:induction false} OwnerIs(pids: set<int>, evs: seq<Event>, n: nat, st: State)
    requires n < |evs| && OwnersAgree(evs, n, st.owners)
    ensures Owner(st, Meaning(evs[n])) == PidOf(evs, n)
  {
  }

  lemma {:induction false} SocketIdIs(pids: set<int>, evs: seq<Event>, n: nat, st: State)
    requires n < |evs| && EndpointsAgree(pids, evs, n + 1, st.endpoints)
    ensures match CreationOf(pids, evs, n)
            case None => SocketId(st, Meaning(evs[n])) == None
            case Some(c) => SocketId(st, Meaning(evs[n])) == Some(IdOf(pids, evs, c))
  {
  }

  lemma {:induction false} StepAgrees(pids: set<int>, evs: seq<Event>, n: nat, st: State)
    requires n < |evs| && Agrees(pids, evs, n, st) && Step(pids, st, evs[n]).Ok?
    ensures Agrees(pids, evs, n + 1, Step(pids, st, evs[n]).value)
  {
    var k := Meaning(evs[n]);
    var noted := Note(pids, st, k);
    NoteOwners(pids, evs, n, st);
    NoteEndpoints(pids, evs, n, st);
    OwnerIs(pids, evs, n, st);
    if IsPublished(pids, evs, n) {
      SocketIdIs(pids, evs, n, noted);
      var after := Step(pids, st, evs[n]).value;
      assert after.records == st.records + [after.records[|st.records|]];
      assert Describes(pids, evs, n, after.records[|st.records|]);
    }
  }

  lemma {:induction false} RunAgrees(pids: set<int>, evs: seq<Event>, n: nat)
    requires n <= |evs| && Run(pids, evs[..n]).Ok?
    ensures Agrees(pids, evs, n, Run(pids, evs[..n]).value)
  {
    if n > 0 {
      assert evs[..n][..n - 1] == evs[..n - 1] && evs[..n][n - 1] == evs[n - 1];
      RunAgrees(pids, evs, n - 1);
      StepAgrees(pids, evs, n - 1, Run(pids, evs[..n - 1]).value);
    }
  }

  // The published records are exactly the events of the traced servers, in
  // order, each joined to the last creation of its socket; both servers occur.
  lemma {:induction false} PublishesJoins(pids: set<int>, evs: seq<Event>)
    requires Metadata(pids, evs).Ok?
    ensures RecordsAgree(pids, evs, |evs|, Metadata(pids, evs).value)
    ensures pids == set r | r in Metadata(pids, evs).value :: r.pid
  {
    assert evs[..|evs|] == evs;
    RunAgrees(pids, evs, |evs|);
  }

  // ---------------------------------------------------------------- what the ids identify

  lemma {:induction false} LastCreationIs(pids: set<int>, evs: seq<Event>, n: nat, p: int, e: int)
    requires n <= |evs| && LastCreation(pids, evs, n, p, e).Some?
    ensures var c := LastCreation(pids, evs, n, p, e).value;
            c < n && Meaning(evs[c]).Create? && Meaning(evs[c]).process == p && Meaning(evs[c]).endpoint == e
            && Meaning(evs[c]).pid in pids && IsPublished(pids, evs, c)
            && forall d :: c < d < n ==> !IsCreation(pids, evs, d, p, e)
  {
    if !IsCreation(pids, evs, n - 1, p, e) {
      LastCreationIs(pids, evs, n - 1, p, e);
    }
  }

  predicate IsCreation(pids: set<int>, evs: seq<Event>, i: nat, p: int, e: int)
    requires i < |evs|
  {
    var k := Meaning(evs[i]);
    k.Create? && k.process == p && k.endpoint == e && k.pid in pids
  }

  // A published event stands in the list at the place its id gives.
  lemma {:induction false} SourceAt(pids: set<int>, evs: seq<Event>, n: nat, c: nat)
    requires c < n <= |evs| && IsPublished(pids, evs, c)
    ensures var src := Sources(pids, evs, n); IdOf(pids, evs, c) <= |src| && src[IdOf(pids, evs, c) - 1] == c
  {
    if c < n - 1 {
      SourceAt(pids, evs, n - 1, c);
    }
  }

  lemma {:induction false} SourcesIncrease(pids: set<int>, evs: seq<Event>, n: nat, m: nat)
    requires n <= m <= |evs|
    ensures Sources(pids, evs, n) <= Sources(pids, evs, m)
  {
    if n < m {
      SourcesIncrease(pids, evs, n, m - 1);
    }
  }

  lemma {:induction false} IdOfSource(pids: set<int>, evs: seq<Event>, n: nat, j: nat)
    requires n <= |evs| && j < |Sources(pids, evs, n)|
    ensures IdOf(pids, evs, Sources(pids, evs, n)[j]) == j + 1
  {
    if j < |Sources(pids, evs, n)| - 1 || !IsPublished(pids, evs, n - 1) {
      IdOfSource(pids, evs, n - 1, j);
    }
  }

  // The creation an event is joined to is a creation of a traced server, at or
  // before the event; a creation by a traced server is joined to itself.
  lemma {:induction false} CreationIs(pids: set<int>, evs: seq<Event>, i: nat)
    requires i < |evs| && CreationOf(pids, evs, i).Some?
    ensures var c := CreationOf(pids, evs, i).value;
            c <= i && Meaning(evs[c]).Create? && Meaning(evs[c]).pid in pids && IsPublished(pids, evs, c)
            && CreationOf(pids, evs, c) == Some(c)
    ensures Meaning(evs[i]).Create? && Meaning(evs[i]).pid in pids ==> CreationOf(pids, evs, i) == Some(i)
  {
    var p, e := SocketOf(evs, i).0, SocketOf(evs, i).1;
    LastCreationIs(pids, evs, i + 1, p, e);
  }

  function SocketOf(evs: seq<Event>, i: nat): (int, int)
    requires i < |evs|
  {
    match Meaning(evs[i])
    case Ignored => (0, 0)
    case Create(p, e, _) => (p, e)
    case Use(p, e) => if p.Some? && e.Some? then (p.value, e.value) else (0, 0)
  }

  // Every published socket id is the 1-based place of a published creation
  // record at or before it, which carries its own place as its id.
  lemma {:induction false} IdsPointToCreations(pids: set<int>, evs: seq<Event>, j: nat)
    requires Metadata(pids, evs).Ok? && j < |Metadata(pids, evs).value|
    ensures var records, src := Metadata(pids, evs).value, Sources(pids, evs, |evs|);
            var id := records[j].endpointId;
            && |src| == |records| && 1 <= id <= j + 1
            && CreationOf(pids, evs, src[j]) == Some(src[id - 1])
            && Meaning(evs[src[id - 1]]).Create?
            && records[id - 1].endpointId == id
            && (Meaning(evs[src[j]]).Create? ==> id == j + 1)
  {
    PublishesJoins(pids, evs);
    var src := Sources(pids, evs, |evs|);
    var i := src[j];
    CreationIs(pids, evs, i);
    var c := CreationOf(pids, evs, i).value;
    SourceAt(pids, evs, |evs|, c);
    IdOfSource(pids, evs, |evs|, j);
    IdsOrdered(pids, evs, c, i);
  }

  lemma {:induction false} IdsOrdered(pids: set<int>, evs: seq<Event>, c: nat, i: nat)
    requires c <= i < |evs|
    ensures IdOf(pids, evs, c) <= IdOf(pids, evs, i)
  {
    SourcesIncrease(pids, evs, c, i);
  }

  // ---------------------------------------------------------------- whose sockets

  // Two creations give the same process address to different processes.
  predicate Conflict(a: Kind, b: Kind)
  {
    a.Create? && b.Create? && a.process == b.process && a.pid != b.pid
  }

  // Two creations give a process address to the same process.
  predicate SameOwner(a: Kind, b: Kind)
  {
    a.Create? && b.Create? && a.process == b.process && a.pid == b.pid
  }

  // Whenever the process address of creation c passes to another process
  // before event i, it passes back before event i.
  predicate OwnerRestored(evs: seq<Event>, c: nat, i: nat)
    requires c < |evs| && i <= |evs|
  {
    forall d :: c < d < i && Conflict(Meaning(evs[d]), Meaning(evs[c])) ==>
      exists f :: d < f < i && SameOwner(Meaning(evs[f]), Meaning(evs[c]))
  }

  lemma {:induction false} LastOwnerIs(evs: seq<Event>, n: nat, p: int)
    requires n <= |evs|
    ensures match LastOwner(evs, n, p)
            case None => forall d :: 0 <= d < n ==> !Owns(evs, d, p)
            case Some(c) => c < n && Owns(evs, c, p) && forall d :: c < d < n ==> !Owns(evs, d, p)
  {
    if n > 0 && !Owns(evs, n - 1, p) {
      LastOwnerIs(evs, n - 1, p);
    }
  }

  predicate Owns(evs: seq<Event>, i: nat, p: int)
    requires i < |evs|
  {
    Meaning(evs[i]).Create? && Meaning(evs[i]).process == p
  }

  // The owner at event i is the creator exactly if the address came back.
  lemma {:induction false} OwnerIsCreator(evs: seq<Event>, c: nat, i: nat, p: int)
    requires c < i <= |evs| && Owns(evs, c, p)
    ensures LastOwner(evs, i, p).Some?
    ensures CreatorPid(evs, LastOwner(evs, i, p).value) == CreatorPid(evs, c) <==> OwnerRestored(evs, c, i)
  {
    LastOwnerIs(evs, i, p);
    var w := LastOwner(evs, i, p).value;
    if CreatorPid(evs, w) == CreatorPid(evs, c) {
      forall d | c < d < i && Conflict(Meaning(evs[d]), Meaning(evs[c]))
        ensures exists f :: d < f < i && SameOwner(Meaning(evs[f]), Meaning(evs[c]))
      {
        assert Owns(evs, d, p);
        assert d < w < i && SameOwner(Meaning(evs[w]), Meaning(evs[c]));
      }
    } else {
      assert c < w < i && Conflict(Meaning(evs[w]), Meaning(evs[c]));
      forall f | w < f < i ensures !SameOwner(Meaning(evs[f]), Meaning(evs[c])) {
        assert !Owns(evs, f, p);
      }
    }
  }

  // A record and the creation record it is joined to name the same process
  // exactly if the process address was not left with another one in between.
  lemma {:induction false} SamePidIff(pids: set<int>, evs: seq<Event>, j: nat)
    requires Metadata(pids, evs).Ok? && j < |Metadata(pids, evs).value|
    ensures var records, src := Metadata(pids, evs).value, Sources(pids, evs, |evs|);
            var id := records[j].endpointId;
            && |src| == |records| && 1 <= id <= |records|
            && CreationOf(pids, evs, src[j]) == Some(src[id - 1])
            && (records[j].pid == records[id - 1].pid <==> OwnerRestored(evs, src[id - 1], src[j]))
  {
    PublishesJoins(pids, evs);
    IdsPointToCreations(pids, evs, j);
    var records, src := Metadata(pids, evs).value, Sources(pids, evs, |evs|);
    var i, c := src[j], src[records[j].endpointId - 1];
    assert Describes(pids, evs, i, records[j]);
    assert Describes(pids, evs, c, records[records[j].endpointId - 1]);
    var (p, e) := SocketOf(evs, i);
    LastCreationIs(pids, evs, i + 1, p, e);
    match Meaning(evs[i])
    case Create(_, _, _) =>
    case Use(_, _) => OwnerIsCreator(evs, c, i, p);
  }

  // No process address is ever created for two different processes.
  ghost predicate NoOwnerChange(evs: seq<Event>)
  {
    forall i, k :: 0 <= i < |evs| && 0 <= k < |evs| ==> !Conflict(Meaning(evs[i]), Meaning(evs[k]))
  }

  // While no process address changes owner, they always do.
  lemma {:induction false} SamePid(pids: set<int>, evs: seq<Event>, j: nat)
    requires Metadata(pids, evs).Ok? && j < |Metadata(pids, evs).value| && NoOwnerChange(evs)
    ensures var records := Metadata(pids, evs).value;
            1 <= records[j].endpointId <= |records| && records[j].pid == records[records[j].endpointId - 1].pid
  {
    SamePidIff(pids, evs, j);
  }

  function Created(process: int, endpoint: int, pid: int): Event
  {
    Event(1, Some(Descriptor(0, 4, 1, 0)),
          map[Process := process, Endpoint := endpoint, UserModePid := pid, SocketType := 1, Protocol := 6], Some("t"))
  }

  function Used(process: int, endpoint: int): Event
  {
    Event(3, Some(Descriptor(0, 4, 3, 0)), map[Process := process, Endpoint := endpoint], Some("t"))
  }

  // Where an address does change owner, a record can name another process
  // than the creation it is joined to.
  lemma {:induction false} OwnerChangeSplitsPids()
    ensures var evs := [Created(7, 1, 100), Created(7, 2, 200), Used(7, 1)];
            var r := Metadata({100, 200}, evs);
            && r.Ok? && |r.value| == 3
            && r.value[2].endpointId == 1 && r.value[2].pid == 200 && r.value[0].pid == 100
  {
    var pids, a, b, c := {100, 200}, Created(7, 1, 100), Created(7, 2, 200), Used(7, 1);
    assert KindOf(a) == Ok(Create(7, 1, 100)) && KindOf(b) == Ok(Create(7, 2, 200)) && KindOf(c) == Ok(Use(Some(7), Some(1)));
    var evs := [a, b, c];
    assert evs[..2] == [a, b] && evs[..2][..1] == [a] && evs[..2][..1][..0] == [];
    assert Run(pids, []) == Ok(EMPTY);
    var s1 := Run(pids, [a]);
    assert s1.Ok? && s1.value.records == [Publish(a, 100, 1)];
    var s2 := Run(pids, [a, b]);
    assert s2.Ok? && s2.value.records == [Publish(a, 100, 1), Publish(b, 200, 2)];
    assert s2.value.owners[7] == 200 && s2.value.endpoints[(7, 1)] == 1;
    var s3 := Run(pids, evs);
    assert s3.Ok? && s3.value.records == [Publish(a, 100, 1), Publish(b, 200, 2), Publish(c, 200, 1)];
    assert s3.value.seen == {100, 200};
  }
}
