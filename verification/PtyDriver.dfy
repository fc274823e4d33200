// The read/match/answer loop that drives the MCP approval acceptance through
// a controlling terminal: scripts/rust-port/mcp-approval-pty.py.
//
// The prompts and the actions are arbitrary lists. Reads are an arbitrary
// list of byte strings.
module PtyDriver {
  import opened Wrappers
  import opened Text
  import opened PtyMarkers

  datatype Action = Answer(bytes: string) | Raise(signal: Signal)

  datatype Effect = Wrote(bytes: string) | Killed(pid: nat, signal: Signal)

  datatype Config = Config(prompts: seq<string>, actions: seq<Action>)
  {
    predicate Valid() { |prompts| == |actions| }
  }

  // Everything the loop remembers besides the transcript and the idle signals.
  datatype State = State(sent: nat, cursor: nat, used: set<nat>, done: seq<Effect>)

  const START := State(0, 0, {}, [])

  // The first marker from index `from` on that is unused and names the signal.
  function NextTarget(ms: seq<Marker>, used: set<nat>, signal: Signal, from: nat): (r: Option<nat>)
    ensures r.Some? ==> from <= r.value < |ms| && r.value !in used && ms[r.value].signal == signal
    ensures forall k :: from <= k < (if r.Some? then r.value else |ms|) ==> k in used || ms[k].signal != signal
    decreases |ms| - from
  {
    if from >= |ms| then None
    else if from !in used && ms[from].signal == signal then Some(from)
    else NextTarget(ms, used, signal, from + 1)
  }

  // One round of the matching loop on transcript t; Stop where the loop breaks
  // off, with the cursor it leaves behind.
  datatype Round = Next(state: State) | Stop(state: State)

  function Match(c: Config, t: string, st: State): (r: Round)
    requires c.Valid() && st.sent < |c.actions|
    ensures r.Next? ==> r.state.sent == st.sent + 1
  {
    var prompt := c.prompts[st.sent];
    match Find(t, prompt, st.cursor)
    case None => Stop(st)
    case Some(at) =>
      match c.actions[st.sent]
      case Answer(bytes) =>
        Next(State(st.sent + 1, at + |prompt|, st.used, st.done + [Wrote(bytes)]))
      case Raise(signal) =>
        var ms := FindIter(t, TARGET);
        match NextTarget(ms, st.used, signal, 0)
        case None => Stop(st.(cursor := at))
        case Some(i) =>
          Next(State(st.sent + 1, at + |prompt|, st.used + {i}, st.done + [Killed(ms[i].pid, signal)]))
  }

  // The matching loop on transcript t.
  function Advance(c: Config, t: string, st: State): (r: State)
    requires c.Valid()
    decreases |c.actions| - st.sent
  {
    if st.sent >= |c.actions| then st
    else match Match(c, t, st)
      case Stop(s) => s
      case Next(s) => Advance(c, t, s)
  }

  // ------------------------------------------------------------ independence of reads

  // A prompt that was answered on the shorter transcript is answered in the
  // same way on the longer one.
  lemma MatchStable(c: Config, t: string, more: string, st: State)
    requires c.Valid() && st.sent < |c.actions| && Match(c, t, st).Next?
    ensures Match(c, t + more, st) == Match(c, t, st)
  {
    FindStable(t, more, c.prompts[st.sent], st.cursor);
    if c.actions[st.sent].Raise? {
      HeadsAreDistinctive();
      FindIterStable(t, more, TARGET);
      TargetStable(FindIter(t, TARGET), FindIter(t + more, TARGET), st.used, c.actions[st.sent].signal, 0);
    }
  }

  lemma TargetStable(ms: seq<Marker>, longer: seq<Marker>, used: set<nat>, signal: Signal, from: nat)
    requires ms <= longer && NextTarget(ms, used, signal, from).Some?
    ensures NextTarget(longer, used, signal, from) == NextTarget(ms, used, signal, from)
    decreases |ms| - from
  {
  }

  // Stopping and resuming with the cursor left behind finds the same prompt.
  lemma ResumeSame(c: Config, t: string, more: string, st: State)
    requires c.Valid() && st.sent < |c.actions| && Match(c, t, st).Stop?
    ensures Match(c, t + more, Match(c, t, st).state) == Match(c, t + more, st)
  {
    if Find(t, c.prompts[st.sent], st.cursor).Some? {
      var at := Find(t, c.prompts[st.sent], st.cursor).value;
      FindStable(t, more, c.prompts[st.sent], st.cursor);
      FindIs(t + more, c.prompts[st.sent], at, at);
    }
  }

  // Matching on what has arrived so far and again when more has arrived is
  // matching once on everything.
  lemma {:induction false} AdvanceInTwo(c: Config, t: string, more: string, st: State)
    requires c.Valid()
    ensures Advance(c, t + more, Advance(c, t, st)) == Advance(c, t + more, st)
    decreases |c.actions| - st.sent
  {
    if st.sent < |c.actions| {
      if Match(c, t, st).Stop? {
        ResumeSame(c, t, more, st);
      } else {
        MatchStable(c, t, more, st);
        AdvanceInTwo(c, t, more, Match(c, t, st).state);
      }
    }
  }

  // The idle-signal pass: every marker that was not signalled yet is, in order.
  function SignalIdle(ms: seq<Marker>, used: set<nat>, done: seq<Effect>, i: nat): (set<nat>, seq<Effect>)
    decreases |ms| - i
  {
    if i >= |ms| then (used, done)
    else if i in used then SignalIdle(ms, used, done, i + 1)
    else SignalIdle(ms, used + {i}, done + [Killed(ms[i].pid, ms[i].signal)], i + 1)
  }

  function Below(n: nat): (r: set<nat>)
    ensures forall i: nat :: i in r <==> i < n
  {
    if n == 0 then {} else Below(n - 1) + {n - 1}
  }

  function Kills(ms: seq<Marker>): (r: seq<Effect>)
    ensures |r| == |ms|
  {
    seq(|ms|, i requires 0 <= i < |ms| => Killed(ms[i].pid, ms[i].signal))
  }

  lemma {:induction false} SignalIdleCatchesUp(ms: seq<Marker>, n: nat, i: nat)
    requires n <= |ms| && i <= |ms|
    ensures SignalIdle(ms, Below(if n < i then i else n), Kills(ms)[..if n < i then i else n], i)
         == (Below(|ms|), Kills(ms))
    decreases |ms| - i
  {
    if i < |ms| {
      SignalIdleCatchesUp(ms, n, i + 1);
      if n <= i {
        assert Below(i) + {i} == Below(i + 1);
        assert Kills(ms)[..i] + [Kills(ms)[i]] == Kills(ms)[..i + 1];
      }
    } else {
      assert Kills(ms)[..|ms|] == Kills(ms);
    }
  }

  datatype Session = Session(transcript: string, state: State, usedIdle: set<nat>, idle: seq<Effect>)

  const FRESH := Session("", START, {}, [])

  // What one read does. A read that returns nothing changes nothing.
  function Read(c: Config, s: Session, chunk: string): Session
    requires c.Valid()
  {
    if chunk == "" then s else
    var t := s.transcript + chunk;
    var idle := SignalIdle(FindIter(t, IDLE), s.usedIdle, s.idle, 0);
    Session(t, Advance(c, t, s.state), idle.0, idle.1)
  }

  function Run(c: Config, s: Session, parts: seq<string>): Session
    requires c.Valid()
    decreases |parts|
  {
    if parts == [] then s else Run(c, Read(c, s, parts[0]), parts[1..])
  }

  function Flatten(parts: seq<string>): string
  {
    if parts == [] then "" else parts[0] + Flatten(parts[1..])
  }

  // The session after everything arrived at once.
  function Seen(c: Config, t: string): Session
    requires c.Valid()
  {
    if t == "" then FRESH else
    var ms := FindIter(t, IDLE);
    Session(t, Advance(c, t, START), Below(|ms|), Kills(ms))
  }

  lemma ReadAfterSeen(c: Config, t: string, chunk: string)
    requires c.Valid()
    ensures Read(c, Seen(c, t), chunk) == Seen(c, t + chunk)
  {
    var ms, longer := FindIter(t, IDLE), FindIter(t + chunk, IDLE);
    HeadsAreDistinctive();
    FindIterStable(t, chunk, IDLE);
    assert Kills(ms) == Kills(longer)[..|ms|];
    SignalIdleCatchesUp(longer, |ms|, 0);
    assert t == "" ==> ms == [] && Kills(ms) == [] && Below(0) == {};
    assert chunk == "" ==> t + chunk == t;
    AdvanceInTwo(c, t, chunk, START);
    if t == "" {
      assert t + chunk == chunk;
    }
  }

  lemma {:induction false} RunFromSeen(c: Config, t: string, parts: seq<string>)
    requires c.Valid()
    ensures Run(c, Seen(c, t), parts) == Seen(c, t + Flatten(parts))
    decreases |parts|
  {
    if parts == [] {
      assert t + "" == t;
    } else {
      var s, rest := Seen(c, t), parts[1..];
      calc {
        Run(c, s, parts);
        Run(c, Read(c, s, parts[0]), rest);
        { ReadAfterSeen(c, t, parts[0]); }
        Run(c, Seen(c, t + parts[0]), rest);
        { RunFromSeen(c, t + parts[0], rest); }
        Seen(c, t + parts[0] + Flatten(rest));
        { assert t + parts[0] + Flatten(rest) == t + Flatten(parts); }
        Seen(c, t + Flatten(parts));
      }
    }
  }

  // However the output is cut into reads, the driver ends in the same session:
  // same prompts answered, same cursor, same markers used, same actions and
  // same idle signals in the same order.
  lemma ReadsDoNotMatter(c: Config, parts: seq<string>, others: seq<string>)
    requires c.Valid() && Flatten(parts) == Flatten(others)
    ensures Run(c, FRESH, parts) == Run(c, FRESH, others) == Seen(c, Flatten(parts))
  {
    assert FRESH == Seen(c, "");
    assert "" + Flatten(parts) == Flatten(parts);
    RunFromSeen(c, "", parts);
    RunFromSeen(c, "", others);
  }

  // ------------------------------------------------------------ optimality

  // The markers that name a signal, in order.
  function OfSignal(ms: seq<Marker>, signal: Signal): seq<Marker>
  {
    if ms == [] then [] else
    var last := ms[|ms| - 1];
    OfSignal(ms[..|ms| - 1], signal) + if last.signal == signal then [last] else []
  }

  // How many earlier markers name the same signal as marker i.
  function Rank(ms: seq<Marker>, i: nat): nat
    requires i < |ms|
  {
    |OfSignal(ms[..i], ms[i].signal)|
  }

  // How many of the first j actions raise the signal.
  function Demand(c: Config, j: nat, signal: Signal): nat
    requires j <= |c.actions|
  {
    if j == 0 then 0
    else Demand(c, j - 1, signal) + if c.actions[j - 1] == Raise(signal) then 1 else 0
  }

  lemma DemandMonotone(c: Config, i: nat, j: nat, signal: Signal)
    requires i <= j <= |c.actions|
    ensures Demand(c, i, signal) <= Demand(c, j, signal)
  {
  }

  lemma {:induction false} OfSignalPrefix(ms: seq<Marker>, i: nat, signal: Signal)
    requires i <= |ms|
    ensures OfSignal(ms[..i], signal) <= OfSignal(ms, signal)
    decreases |ms|
  {
    if i < |ms| {
      var front := ms[..|ms| - 1];
      assert front[..i] == ms[..i];
      OfSignalPrefix(front, i, signal);
    } else {
      assert ms[..i] == ms;
    }
  }

  // Marker i is the one at index Rank(i) among the markers of its signal.
  lemma RankLocates(ms: seq<Marker>, i: nat)
    requires i < |ms|
    ensures Rank(ms, i) < |OfSignal(ms, ms[i].signal)|
    ensures OfSignal(ms, ms[i].signal)[Rank(ms, i)] == ms[i]
    ensures OfSignal(ms[..i + 1], ms[i].signal) == OfSignal(ms[..i], ms[i].signal) + [ms[i]]
  {
    assert ms[..i + 1][..i] == ms[..i];
    OfSignalPrefix(ms, i + 1, ms[i].signal);
  }

  lemma RankIncreases(ms: seq<Marker>, i: nat, j: nat)
    requires i < j < |ms| && ms[i].signal == ms[j].signal
    ensures Rank(ms, i) < Rank(ms, j)
  {
    RankLocates(ms, i);
    assert ms[..j][..i + 1] == ms[..i + 1];
    OfSignalPrefix(ms[..j], i + 1, ms[i].signal);
  }

  // The index of the k-th marker of a signal.
  lemma {:induction false} Nth(ms: seq<Marker>, signal: Signal, k: nat) returns (i: nat)
    requires k < |OfSignal(ms, signal)|
    ensures i < |ms| && ms[i].signal == signal && Rank(ms, i) == k
    decreases |ms|
  {
    var front := ms[..|ms| - 1];
    if k < |OfSignal(front, signal)| {
      i := Nth(front, signal, k);
      assert front[..i] == ms[..i];
    } else {
      i := |ms| - 1;
    }
  }

  // The markers consumed by the first j actions: for each signal, the earliest.
  ghost function Consumed(c: Config, ms: seq<Marker>, j: nat): set<nat>
    requires j <= |c.actions|
  {
    set i: nat | i < |ms| && Rank(ms, i) < Demand(c, j, ms[i].signal)
  }

  // With the earliest k markers of the signal used up, the next target is the
  // marker of rank k, and there is none exactly when all are used up.
  lemma NextTargetIsNth(c: Config, ms: seq<Marker>, j: nat, signal: Signal)
    requires j <= |c.actions|
    ensures var k := Demand(c, j, signal);
            match NextTarget(ms, Consumed(c, ms, j), signal, 0)
            case Some(i) => Rank(ms, i) == k && k < |OfSignal(ms, signal)|
            case None => |OfSignal(ms, signal)| <= k
  {
    var k := Demand(c, j, signal);
    var r := NextTarget(ms, Consumed(c, ms, j), signal, 0);
    if k < |OfSignal(ms, signal)| {
      var n := Nth(ms, signal, k);
      assert n !in Consumed(c, ms, j);
      if r.value < n {
        RankIncreases(ms, r.value, n);
      }
    } else if r.Some? {
      RankLocates(ms, r.value);
    }
  }

  lemma ConsumedGrows(c: Config, ms: seq<Marker>, j: nat, i: nat)
    requires j < |c.actions| && i < |ms| && c.actions[j] == Raise(ms[i].signal)
    requires Rank(ms, i) == Demand(c, j, ms[i].signal)
    ensures Consumed(c, ms, j + 1) == Consumed(c, ms, j) + {i}
  {
    forall x: nat | x < |ms| && x != i && ms[x].signal == ms[i].signal
      ensures Rank(ms, x) != Rank(ms, i)
    {
      if x < i { RankIncreases(ms, x, i); } else { RankIncreases(ms, i, x); }
    }
  }

  // What action i does: an answer is written, and the k-th request for a
  // signal goes to the process named by the k-th marker of that signal.
  ghost predicate IsEffect(c: Config, ms: seq<Marker>, i: nat, e: Effect)
    requires i < |c.actions|
  {
    match c.actions[i]
    case Answer(bytes) => e == Wrote(bytes)
    case Raise(signal) =>
      var k := Demand(c, i, signal);
      k < |OfSignal(ms, signal)| && e == Killed(OfSignal(ms, signal)[k].pid, signal)
  }

  ghost predicate Supplied(c: Config, ms: seq<Marker>, j: nat)
    requires j <= |c.actions|
  {
    forall signal :: Demand(c, j, signal) <= |OfSignal(ms, signal)|
  }

  // The bookkeeping of a state agrees with the markers.
  ghost predicate Accounted(c: Config, ms: seq<Marker>, st: State)
  {
    && st.sent <= |c.actions|
    && st.used == Consumed(c, ms, st.sent)
    && |st.done| == st.sent
    && (forall i :: 0 <= i < st.sent ==> IsEffect(c, ms, i, st.done[i]))
    && Supplied(c, ms, st.sent)
  }

  // The earliest end of the first j prompts, if they occur in order.
  function GreedyEnd(c: Config, t: string, j: nat): Option<nat>
    requires c.Valid() && j <= |c.prompts|
  {
    if j == 0 then Some(0)
    else match GreedyEnd(c, t, j - 1)
      case None => None
      case Some(from) =>
        match Find(t, c.prompts[j - 1], from)
        case None => None
        case Some(at) => Some(at + |c.prompts[j - 1]|)
  }

  // ps places the first |ps| prompts in order and without overlap.
  predicate Placement(c: Config, t: string, ps: seq<nat>)
    requires c.Valid() && |ps| <= |c.prompts|
  {
    && (forall i :: 0 <= i < |ps| ==> At(t, c.prompts[i], ps[i]))
    && (forall i :: 0 < i < |ps| ==> ps[i - 1] + |c.prompts[i - 1]| <= ps[i])
  }

  // Greedy placement stays ahead of every other placement.
  lemma {:induction false} GreedyStaysAhead(c: Config, t: string, ps: seq<nat>)
    requires c.Valid() && |ps| <= |c.prompts| && Placement(c, t, ps)
    ensures GreedyEnd(c, t, |ps|).Some?
    ensures |ps| > 0 ==> GreedyEnd(c, t, |ps|).value <= ps[|ps| - 1] + |c.prompts[|ps| - 1]|
    decreases |ps|
  {
    if |ps| > 0 {
      GreedyStaysAhead(c, t, ps[..|ps| - 1]);
    }
  }

  lemma {:induction false} GreedyPlaces(c: Config, t: string, j: nat) returns (ps: seq<nat>)
    requires c.Valid() && j <= |c.prompts| && GreedyEnd(c, t, j).Some?
    ensures |ps| == j && Placement(c, t, ps)
    ensures j > 0 ==> ps[j - 1] + |c.prompts[j - 1]| == GreedyEnd(c, t, j).value
  {
    if j == 0 {
      ps := [];
    } else {
      var front := GreedyPlaces(c, t, j - 1);
      ps := front + [Find(t, c.prompts[j - 1], GreedyEnd(c, t, j - 1).value).value];
    }
  }

  // The first j prompts can be placed and no signal among the first j actions
  // is asked for more often than it has markers.
  ghost predicate Feasible(c: Config, t: string, j: nat)
    requires c.Valid()
  {
    && j <= |c.actions|
    && (exists ps: seq<nat> :: |ps| == j && Placement(c, t, ps))
    && Supplied(c, FindIter(t, TARGET), j)
  }

  lemma FeasibleIffGreedy(c: Config, t: string, j: nat)
    requires c.Valid() && j <= |c.actions|
    ensures Feasible(c, t, j) <==> GreedyEnd(c, t, j).Some? && Supplied(c, FindIter(t, TARGET), j)
  {
    if GreedyEnd(c, t, j).Some? {
      var ps := GreedyPlaces(c, t, j);
    }
    forall ps: seq<nat> | |ps| == j && Placement(c, t, ps)
      ensures GreedyEnd(c, t, j).Some?
    {
      GreedyStaysAhead(c, t, ps);
    }
  }

  lemma {:induction false} FeasibleShorter(c: Config, t: string, i: nat, j: nat)
    requires c.Valid() && i <= j && Feasible(c, t, j)
    ensures Feasible(c, t, i)
  {
    var ps: seq<nat> :| |ps| == j && Placement(c, t, ps);
    assert |ps[..i]| == i && Placement(c, t, ps[..i]);
    forall signal ensures Demand(c, i, signal) <= Demand(c, j, signal) {
      DemandMonotone(c, i, j, signal);
    }
  }

  // An answered prompt keeps the books.
  lemma AnswerAccounts(c: Config, ms: seq<Marker>, st: State, cursor: nat)
    requires st.sent < |c.actions| && c.actions[st.sent].Answer? && Accounted(c, ms, st)
    ensures Accounted(c, ms, State(st.sent + 1, cursor, st.used, st.done + [Wrote(c.actions[st.sent].bytes)]))
  {
    assert Consumed(c, ms, st.sent + 1) == Consumed(c, ms, st.sent);
  }

  lemma SuppliedGrows(c: Config, ms: seq<Marker>, j: nat)
    requires j < |c.actions| && c.actions[j].Raise? && Supplied(c, ms, j)
    requires Demand(c, j, c.actions[j].signal) < |OfSignal(ms, c.actions[j].signal)|
    ensures Supplied(c, ms, j + 1)
  {
  }

  // A delivered signal uses up the earliest unused marker of its name.
  lemma RaiseTakesNth(c: Config, ms: seq<Marker>, j: nat, i: nat)
    requires j < |c.actions| && c.actions[j].Raise?
    requires NextTarget(ms, Consumed(c, ms, j), c.actions[j].signal, 0) == Some(i)
    ensures Consumed(c, ms, j + 1) == Consumed(c, ms, j) + {i}
    ensures IsEffect(c, ms, j, Killed(ms[i].pid, c.actions[j].signal))
  {
    NextTargetIsNth(c, ms, j, c.actions[j].signal);
    ConsumedGrows(c, ms, j, i);
    RankLocates(ms, i);
  }

  // So a delivered signal keeps the books too.
  lemma {:induction false} RaiseAccounts(c: Config, ms: seq<Marker>, st: State, cursor: nat, i: nat)
    requires st.sent < |c.actions| && c.actions[st.sent].Raise? && Accounted(c, ms, st)
    requires NextTarget(ms, st.used, c.actions[st.sent].signal, 0) == Some(i)
    ensures Accounted(c, ms, State(st.sent + 1, cursor, st.used + {i}, st.done + [Killed(ms[i].pid, c.actions[st.sent].signal)]))
  {
    RaiseTakesNth(c, ms, st.sent, i);
    SuppliedGrows(c, ms, st.sent);
  }

  lemma MatchAccounts(c: Config, t: string, st: State)
    requires c.Valid() && st.sent < |c.actions| && Accounted(c, FindIter(t, TARGET), st)
    ensures Accounted(c, FindIter(t, TARGET), Match(c, t, st).state)
  {
    var ms := FindIter(t, TARGET);
    var r := Match(c, t, st);
    if r.Next? {
      if c.actions[st.sent].Raise? {
        RaiseAccounts(c, ms, st, r.state.cursor, NextTarget(ms, st.used, c.actions[st.sent].signal, 0).value);
      } else {
        AnswerAccounts(c, ms, st, r.state.cursor);
      }
    }
  }

  // The loop breaks off only where no placement or no supply of markers would
  // let it go on.
  lemma StopIsForced(c: Config, t: string, st: State)
    requires c.Valid() && st.sent < |c.actions|
    requires Accounted(c, FindIter(t, TARGET), st) && GreedyEnd(c, t, st.sent) == Some(st.cursor)
    requires Match(c, t, st).Stop?
    ensures Match(c, t, st).state.sent == st.sent && !Feasible(c, t, st.sent + 1)
  {
    FeasibleIffGreedy(c, t, st.sent + 1);
    if Find(t, c.prompts[st.sent], st.cursor).Some? {
      var signal := c.actions[st.sent].signal;
      var ms := FindIter(t, TARGET);
      NextTargetIsNth(c, ms, st.sent, signal);
      assert Demand(c, st.sent + 1, signal) == Demand(c, st.sent, signal) + 1;
    }
  }

  // Where it goes on, it goes on along the greedy placement.
  lemma {:induction false} NextFollowsGreedy(c: Config, t: string, st: State)
    requires c.Valid() && st.sent < |c.actions| && GreedyEnd(c, t, st.sent) == Some(st.cursor)
    requires Match(c, t, st).Next?
    ensures GreedyEnd(c, t, st.sent + 1) == Some(Match(c, t, st).state.cursor)
  {
    var at := Find(t, c.prompts[st.sent], st.cursor);
    assert at.Some? && Match(c, t, st).state.cursor == at.value + |c.prompts[st.sent]|;
  }

  // The books are kept and no further prompt could have been answered.
  ghost predicate Settled(c: Config, t: string, r: State)
    requires c.Valid()
  {
    && Accounted(c, FindIter(t, TARGET), r)
    && GreedyEnd(c, t, r.sent).Some?
    && (r.sent == |c.actions| || !Feasible(c, t, r.sent + 1))
  }

  lemma {:induction false} StopSettles(c: Config, t: string, st: State)
    requires c.Valid() && st.sent < |c.actions|
    requires Accounted(c, FindIter(t, TARGET), st) && GreedyEnd(c, t, st.sent) == Some(st.cursor)
    requires Match(c, t, st).Stop?
    ensures Settled(c, t, Match(c, t, st).state)
  {
    MatchAccounts(c, t, st);
    StopIsForced(c, t, st);
  }

  lemma {:induction false} AdvanceSettles(c: Config, t: string, st: State)
    requires c.Valid()
    requires Accounted(c, FindIter(t, TARGET), st) && GreedyEnd(c, t, st.sent) == Some(st.cursor)
    ensures Settled(c, t, Advance(c, t, st))
    decreases |c.actions| - st.sent
  {
    if st.sent < |c.actions| {
      var r := Match(c, t, st);
      if r.Stop? {
        StopSettles(c, t, st);
      } else {
        MatchAccounts(c, t, st);
        NextFollowsGreedy(c, t, st);
        AdvanceSettles(c, t, r.state);
      }
    }
  }

  // Greedy matching is optimal: `sent` is the largest feasible number of
  // prompts, the k-th request for a signal goes to its k-th marker, and the
  // used markers are exactly those.
  lemma {:induction false} SentIsLargestFeasible(c: Config, t: string)
    requires c.Valid()
    ensures var r := Advance(c, t, START);
            && Accounted(c, FindIter(t, TARGET), r)
            && Feasible(c, t, r.sent)
            && forall j: nat :: Feasible(c, t, j) ==> j <= r.sent
  {
    var ms := FindIter(t, TARGET);
    assert Consumed(c, ms, 0) == {};
    AdvanceSettles(c, t, START);
    var r := Advance(c, t, START);
    FeasibleIffGreedy(c, t, r.sent);
    forall j: nat | Feasible(c, t, j)
      ensures j <= r.sent
    {
      if r.sent < j {
        FeasibleShorter(c, t, r.sent + 1, j);
      }
    }
  }

  // ------------------------------------------------------------ the driver itself

  class Driver {
    const config: Config
    var transcript: string
    var sent: nat
    var promptCursor: nat
    var usedSignalTargets: set<nat>
    var usedIdleSignals: set<nat>
    var answered: seq<Effect>
    var idled: seq<Effect>

    function Matching(): State
      reads this
    {
      State(sent, promptCursor, usedSignalTargets, answered)
    }

    function Current(): Session
      reads this
    {
      Session(transcript, Matching(), usedIdleSignals, idled)
    }

    constructor (config: Config)
      requires config.Valid()
      ensures this.config == config && Current() == FRESH
    {
      this.config := config;
      transcript, sent, promptCursor := "", 0, 0;
      usedSignalTargets, usedIdleSignals := {}, {};
      answered, idled := [], [];
    }

    method FindTarget(signal: Signal) returns (target: Option<(nat, Marker)>)
      ensures var ms := FindIter(transcript, TARGET);
              match NextTarget(ms, usedSignalTargets, signal, 0)
              case Some(i) => target == Some((i, ms[i]))
              case None => target == None
    {
      var matches := FindIter(transcript, TARGET);
      var i := 0;
      while i < |matches|
        invariant 0 <= i <= |matches|
        invariant NextTarget(matches, usedSignalTargets, signal, i) == NextTarget(matches, usedSignalTargets, signal, 0)
      {
        if i !in usedSignalTargets && matches[i].signal == signal {
          return Some((i, matches[i]));
        }
        i := i + 1;
      }
      return None;
    }

    // One round of the matching loop; `go` is false where it breaks off.
    method AnswerPrompt() returns (go: bool)
      requires config.Valid() && sent < |config.actions|
      modifies `sent, `promptCursor, `usedSignalTargets, `answered
      ensures Match(config, transcript, old(Matching())) == if go then Next(Matching()) else Stop(Matching())
    {
      var prompt := config.prompts[sent];
      var promptAt := Find(transcript, prompt, promptCursor);
      if promptAt.None? {
        return false;
      }
      promptCursor := promptAt.value + |prompt|;
      match config.actions[sent] {
        case Raise(signal) =>
          var target := FindTarget(signal);
          if target.None? {
            promptCursor := promptAt.value;
            return false;
          }
          usedSignalTargets := usedSignalTargets + {target.value.0};
          answered := answered + [Killed(target.value.1.pid, signal)];
        case Answer(bytes) =>
          answered := answered + [Wrote(bytes)];
      }
      sent := sent + 1;
      return true;
    }

    method AnswerPrompts()
      requires config.Valid()
      modifies `sent, `promptCursor, `usedSignalTargets, `answered
      ensures Matching() == Advance(config, transcript, old(Matching()))
    {
      while sent < |config.actions|
        invariant Advance(config, transcript, Matching()) == Advance(config, transcript, old(Matching()))
        decreases |config.actions| - sent
      {
        var go := AnswerPrompt();
        if !go {
          break;
        }
      }
    }

    method SignalIdlers()
      modifies `usedIdleSignals, `idled
      ensures (usedIdleSignals, idled)
           == SignalIdle(FindIter(transcript, IDLE), old(usedIdleSignals), old(idled), 0)
    {
      var matches := FindIter(transcript, IDLE);
      var i := 0;
      while i < |matches|
        invariant 0 <= i <= |matches|
        invariant SignalIdle(matches, usedIdleSignals, idled, i)
               == SignalIdle(matches, old(usedIdleSignals), old(idled), 0)
      {
        if i !in usedIdleSignals {
          usedIdleSignals := usedIdleSignals + {i};
          idled := idled + [Killed(matches[i].pid, matches[i].signal)];
        }
        i := i + 1;
      }
    }

    // One pass of the outer loop over what the terminal delivered.
    method Take(chunk: string)
      requires config.Valid()
      modifies this
      ensures Current() == Read(config, old(Current()), chunk)
    {
      if chunk != "" {
        transcript := transcript + chunk;
        AnswerPrompts();
        SignalIdlers();
      }
    }

    // The whole run, for any way the output is cut into reads.
    method Drive(chunks: seq<string>)
      requires config.Valid() && Current() == FRESH
      modifies this
      ensures Current() == Seen(config, Flatten(chunks))
      ensures Flatten(chunks) != "" ==>
                Feasible(config, Flatten(chunks), sent)
                && forall j: nat :: Feasible(config, Flatten(chunks), j) ==> j <= sent
    {
      var i := 0;
      while i < |chunks|
        invariant 0 <= i <= |chunks|
        invariant Run(config, Current(), chunks[i..]) == Run(config, FRESH, chunks)
      {
        Take(chunks[i]);
        i := i + 1;
      }
      ReadsDoNotMatter(config, chunks, chunks);
      SentIsLargestFeasible(config, Flatten(chunks));
    }
  }
}
