// The replayed Go side of the data-safety contract: recorded seed calls,
// attested reverse calls and the closing count.
// scripts/rust-port/data_safety_contract.py
module ReplayOracle {
  import opened Wrappers
  import N = Numerals

  type Tree = map<string, string>

  datatype Role = Seed | Reverse

  // A recorded call. `effect` is what the recorded delta does to a sandbox.
  datatype Call = Call(key: string, role: Role, args: seq<string>, returncode: int, effect: Tree -> Tree)

  datatype Verdict = Verdict(key: string, args: seq<string>, returncode: int)

  // The recordings: calls in order, verdicts by key.
  datatype Tape = Tape(calls: seq<Call>, attested: map<string, Verdict>)

  function ByKey(verdicts: seq<Verdict>): map<string, Verdict>
  {
    if verdicts == [] then map[]
    else var last := verdicts[|verdicts| - 1]; ByKey(verdicts[..|verdicts| - 1])[last.key := last]
  }

  function Key(name: string, index: nat): string { name + "#" + N.Digits(index, 10) }

  // The first recorded call with the key.
  function FirstCall(calls: seq<Call>, key: string): Option<Call>
  {
    if calls == [] then None else if calls[0].key == key then Some(calls[0]) else FirstCall(calls[1..], key)
  }

  // ---------------------------------------------------------------- one call

  datatype Counters = Counters(cursor: map<string, nat>, seeds: nat, reverses: nat)

  const FRESH: Counters := Counters(map[], 0, 0)

  datatype Outcome = Failed | Attested(returncode: int) | Replayed(returncode: int, effect: Tree -> Tree)

  function NextIndex(cursor: map<string, nat>, name: string): nat { if name in cursor then cursor[name] + 1 else 0 }

  function Advance(c: Counters, name: string, role: Role): Counters
  {
    Counters(c.cursor[name := NextIndex(c.cursor, name)],
             if role == Seed then c.seeds + 1 else c.seeds,
             if role == Reverse then c.reverses + 1 else c.reverses)
  }

  function RoleOf(rustRan: bool): Role { if rustRan then Reverse else Seed }

  // What the tape says about a call.
  function Answer(tape: Tape, key: string, role: Role, args: seq<string>): Outcome
  {
    if role == Reverse then
      if key in tape.attested && tape.attested[key].args == args then Attested(tape.attested[key].returncode) else Failed
    else
      match FirstCall(tape.calls, key)
      case None => Failed
      case Some(call) =>
        if call.args == args && call.role == role then Replayed(call.returncode, call.effect) else Failed
  }

  class Sandbox {
    const name: string
    var rustRan: bool
    var tree: Tree

    constructor (name: string, tree: Tree)
      ensures this.name == name && !rustRan && this.tree == tree
    {
      this.name, rustRan, this.tree := name, false, tree;
    }

    // A run of the Rust binary, whatever it does to the tree.
    method RunRust(result: Tree)
      modifies this
      ensures rustRan && tree == result
    {
      rustRan, tree := true, result;
    }
  }

  class GoOracle {
    const tape: Tape
    var cursor: map<string, nat>
    var seeds: nat
    var reverses: nat

    constructor (calls: seq<Call>, verdicts: seq<Verdict>)
      ensures tape == Tape(calls, ByKey(verdicts)) && Count() == FRESH
    {
      tape := Tape(calls, ByKey(verdicts));
      cursor, seeds, reverses := map[], 0, 0;
    }

    function Count(): Counters
      reads this
    {
      Counters(cursor, seeds, reverses)
    }

    method FindCall(key: string) returns (call: Option<Call>)
      ensures call == FirstCall(tape.calls, key)
    {
      var i := 0;
      while i < |tape.calls|
        invariant 0 <= i <= |tape.calls|
        invariant FirstCall(tape.calls, key) == FirstCall(tape.calls[i..], key)
      {
        if tape.calls[i].key == key {
          return Some(tape.calls[i]);
        }
        assert tape.calls[i..][1..] == tape.calls[i + 1..];
        i := i + 1;
      }
      return None;
    }

    method Invoke(sandbox: Sandbox, args: seq<string>) returns (outcome: Outcome)
      modifies this, sandbox
      ensures var role := RoleOf(old(sandbox.rustRan));
              && Count() == Advance(old(Count()), sandbox.name, role)
              && outcome == Answer(tape, Key(sandbox.name, NextIndex(old(cursor), sandbox.name)), role, args)
      ensures sandbox.rustRan == old(sandbox.rustRan)
      ensures sandbox.tree == if outcome.Replayed? then outcome.effect(old(sandbox.tree)) else old(sandbox.tree)
    {
      var role := if sandbox.rustRan then Reverse else Seed;
      var index := if sandbox.name in cursor then cursor[sandbox.name] + 1 else 0;
      cursor := cursor[sandbox.name := index];
      var key := Key(sandbox.name, index);
      if role == Reverse {
        reverses := reverses + 1;
        if key !in tape.attested || tape.attested[key].args != args {
          return Failed;
        }
        return Attested(tape.attested[key].returncode);
      }
      seeds := seeds + 1;
      var recorded := FindCall(key);
      if recorded.None? || recorded.value.args != args || recorded.value.role != role {
        return Failed;
      }
      sandbox.tree := recorded.value.effect(sandbox.tree);
      return Replayed(recorded.value.returncode, recorded.value.effect);
    }
  }

  // ---------------------------------------------------------------- runs

  // A Go call, or a run of the Rust binary with the tree it leaves.
  datatype Op = Go(name: string, args: seq<string>) | Rust(name: string, result: Tree)

  datatype Event = Seeded(name: string, index: nat) | Reversed(name: string, index: nat) | RustRan(name: string)

  datatype World = World(count: Counters, ran: set<string>, log: seq<Event>)

  const START: World := World(FRESH, {}, [])

  // One operation on sandboxes identified by name; None where it fails.
  function Step(tape: Tape, w: World, op: Op): Option<World>
  {
    match op
    case Rust(name, _) => Some(World(w.count, w.ran + {name}, w.log + [RustRan(name)]))
    case Go(name, args) =>
      var role, index := RoleOf(name in w.ran), NextIndex(w.count.cursor, name);
      if Answer(tape, Key(name, index), role, args).Failed? then None
      else Some(World(Advance(w.count, name, role), w.ran,
                      w.log + [if role == Seed then Seeded(name, index) else Reversed(name, index)]))
  }

  function Run(tape: Tape, ops: seq<Op>): Option<World>
  {
    if ops == [] then Some(START)
    else
      match Run(tape, ops[..|ops| - 1])
      case None => None
      case Some(w) => Step(tape, w, ops[|ops| - 1])
  }

  lemma {:induction false} RunFails(tape: Tape, ops: seq<Op>, n: nat)
    requires n <= |ops| && Run(tape, ops[..n]).None?
    ensures Run(tape, ops).None?
    decreases |ops|
  {
    if n == |ops| {
      assert ops[..n] == ops;
    } else {
      assert ops[..|ops| - 1][..n] == ops[..n];
      RunFails(tape, ops[..|ops| - 1], n);
    }
  }

  // ---------------------------------------------------------------- the trees

  // The tree the last Rust run in a sandbox left.
  function LastRust(ops: seq<Op>, name: string): Option<Tree>
  {
    if ops == [] then None
    else
      var last := ops[|ops| - 1];
      if last.Rust? && last.name == name then Some(last.result) else LastRust(ops[..|ops| - 1], name)
  }

  function GoCalls(ops: seq<Op>, name: string): nat
  {
    if ops == [] then 0
    else
      var last := ops[|ops| - 1];
      GoCalls(ops[..|ops| - 1], name) + if last.Go? && last.name == name then 1 else 0
  }

  // The recorded effects of the first n calls of a sandbox, in order.
  function SeedTree(tape: Tape, name: string, n: nat, start: Tree): Tree
  {
    if n == 0 then start
    else
      var before := SeedTree(tape, name, n - 1, start);
      match FirstCall(tape.calls, Key(name, n - 1)) case None => before case Some(call) => call.effect(before)
  }

  // What a sandbox holds: what Rust left there last, untouched by later calls,
  // or the effects of its recorded calls.
  function TreeOf(tape: Tape, ops: seq<Op>, name: string, start: Tree): Tree
  {
    match LastRust(ops, name)
    case Some(tree) => tree
    case None => SeedTree(tape, name, GoCalls(ops, name), start)
  }

  // The counters and marks of a run say what its operations were.
  lemma {:induction false} RunFollows(tape: Tape, ops: seq<Op>, name: string)
    requires Run(tape, ops).Some?
    ensures var w := Run(tape, ops).value;
            (name in w.ran <==> LastRust(ops, name).Some?) && NextIndex(w.count.cursor, name) == GoCalls(ops, name)
    decreases |ops|
  {
    if ops != [] {
      RunFollows(tape, ops[..|ops| - 1], name);
    }
  }

  // What one operation makes of the tree of its sandbox: what Rust leaves, or
  // the recorded effect of a seed call.
  function NextTree(tape: Tape, w: World, op: Op, before: Tree): Tree
  {
    match op
    case Rust(_, result) => result
    case Go(name, args) =>
      match Answer(tape, Key(name, NextIndex(w.count.cursor, name)), RoleOf(name in w.ran), args)
      case Replayed(_, effect) => effect(before)
      case _ => before
  }

  lemma {:induction false} TreeStep(tape: Tape, ops: seq<Op>, op: Op, name: string, start: Tree)
    requires Run(tape, ops).Some? && Step(tape, Run(tape, ops).value, op).Some?
    ensures var before := TreeOf(tape, ops, name, start);
            TreeOf(tape, ops + [op], name, start) ==
              if op.name == name then NextTree(tape, Run(tape, ops).value, op, before) else before
  {
    assert (ops + [op])[..|ops|] == ops;
    RunFollows(tape, ops, name);
  }

  // One operation on the objects.
  method Perform(oracle: GoOracle, box: Sandbox, op: Op, ghost w: World) returns (ok: bool)
    requires op.name == box.name && oracle.Count() == w.count && (box.rustRan <==> box.name in w.ran)
    modifies oracle, box
    ensures ok <==> Step(oracle.tape, w, op).Some?
    ensures ok ==> oracle.Count() == Step(oracle.tape, w, op).value.count
    ensures ok ==> (box.rustRan <==> box.name in Step(oracle.tape, w, op).value.ran)
    ensures ok ==> box.tree == NextTree(oracle.tape, w, op, old(box.tree))
  {
    match op
    case Rust(_, result) =>
      box.RunRust(result);
      return true;
    case Go(_, args) =>
      var outcome := oracle.Invoke(box, args);
      return !outcome.Failed?;
  }

  // The objects carry out the operations as the runs above say, as long as
  // each name belongs to one sandbox.
  method Replay(oracle: GoOracle, boxes: map<string, Sandbox>, ops: seq<Op>) returns (ok: bool)
    requires oracle.Count() == FRESH
    requires forall n :: n in boxes ==> boxes[n].name == n && !boxes[n].rustRan
    requires forall i :: 0 <= i < |ops| ==> ops[i].name in boxes
    modifies oracle, boxes.Values
    ensures ok <==> Run(oracle.tape, ops).Some?
    ensures ok ==> oracle.Count() == Run(oracle.tape, ops).value.count
    ensures ok ==> forall n :: n in boxes ==> (boxes[n].rustRan <==> n in Run(oracle.tape, ops).value.ran)
    ensures ok ==> forall n :: n in boxes ==> boxes[n].tree == TreeOf(oracle.tape, ops, n, old(boxes[n].tree))
  {
    ghost var w := START;
    for i := 0 to |ops|
      invariant Run(oracle.tape, ops[..i]) == Some(w)
      invariant oracle.Count() == w.count
      invariant forall n :: n in boxes ==> (boxes[n].rustRan <==> n in w.ran)
      invariant forall n :: n in boxes ==> boxes[n].tree == TreeOf(oracle.tape, ops[..i], n, old(boxes[n].tree))
    {
      assert ops[..i + 1] == ops[..i] + [ops[i]];
      assert ops[..i + 1][..i] == ops[..i];
      var done := Perform(oracle, boxes[ops[i].name], ops[i], w);
      if !done {
        RunFails(oracle.tape, ops, i + 1);
        return false;
      }
      forall n | n in boxes ensures boxes[n].tree == TreeOf(oracle.tape, ops[..i + 1], n, old(boxes[n].tree)) {
        TreeStep(oracle.tape, ops[..i], ops[i], n, old(boxes[n].tree));
      }
      w := Step(oracle.tape, w, ops[i]).value;
    }
    assert ops[..|ops|] == ops;
    return true;
  }

  // ---------------------------------------------------------------- what every run keeps

  predicate IsCall(e: Event, name: string) { !e.RustRan? && e.name == name }

  // How many Go calls the log holds for a sandbox.
  function Calls(log: seq<Event>, name: string): nat
  {
    if log == [] then 0
    else Calls(log[..|log| - 1], name) + if IsCall(log[|log| - 1], name) then 1 else 0
  }

  function CountSeeds(log: seq<Event>): nat
  {
    if log == [] then 0 else CountSeeds(log[..|log| - 1]) + if log[|log| - 1].Seeded? then 1 else 0
  }

  // The verdicts the log relied on.
  function Relied(log: seq<Event>): seq<string>
  {
    if log == [] then []
    else
      var last := log[|log| - 1];
      Relied(log[..|log| - 1]) + if last.Reversed? then [Key(last.name, last.index)] else []
  }

  // Every event stands where it may: calls are numbered in order, seed calls
  // come before Rust ran in the sandbox and reverse calls after, and a reverse
  // call has an attested verdict.
  predicate Placed(tape: Tape, log: seq<Event>, p: nat)
    requires p < |log|
  {
    match log[p]
    case RustRan(_) => true
    case Seeded(name, index) => index == Calls(log[..p], name) && RustRan(name) !in log[..p]
    case Reversed(name, index) =>
      index == Calls(log[..p], name) && RustRan(name) in log[..p] && Key(name, index) in tape.attested
  }

  ghost predicate Inv(tape: Tape, w: World)
  {
    && (forall name :: NextIndex(w.count.cursor, name) == Calls(w.log, name))
    && (forall name :: name in w.ran <==> RustRan(name) in w.log)
    && (forall p :: 0 <= p < |w.log| ==> Placed(tape, w.log, p))
    && w.count.seeds == CountSeeds(w.log) && w.count.reverses == |Relied(w.log)|
  }

  lemma {:induction false} PlacedEarlier(tape: Tape, log: seq<Event>, e: Event, p: nat)
    requires p < |log|
    ensures Placed(tape, log + [e], p) == Placed(tape, log, p)
  {
    assert (log + [e])[..p] == log[..p];
  }

  lemma {:induction false} LogGrows(tape: Tape, log: seq<Event>, e: Event)
    requires forall p :: 0 <= p < |log| ==> Placed(tape, log, p)
    requires Placed(tape, log + [e], |log|)
    ensures forall p :: 0 <= p < |log + [e]| ==> Placed(tape, log + [e], p)
    ensures forall name :: Calls(log + [e], name) == Calls(log, name) + if IsCall(e, name) then 1 else 0
    ensures CountSeeds(log + [e]) == CountSeeds(log) + if e.Seeded? then 1 else 0
    ensures |Relied(log + [e])| == |Relied(log)| + if e.Reversed? then 1 else 0
  {
    assert (log + [e])[..|log|] == log;
    forall p | 0 <= p < |log| ensures Placed(tape, log + [e], p) {
      PlacedEarlier(tape, log, e, p);
    }
  }

  lemma {:induction false} StepKeeps(tape: Tape, w: World, op: Op)
    requires Inv(tape, w) && Step(tape, w, op).Some?
    ensures Inv(tape, Step(tape, w, op).value)
  {
    var after := Step(tape, w, op).value;
    var e := after.log[|w.log|];
    assert after.log[..|w.log|] == w.log;
    assert Placed(tape, after.log, |w.log|);
    LogGrows(tape, w.log, e);
  }

  lemma {:induction false} RunKeeps(tape: Tape, ops: seq<Op>)
    requires Run(tape, ops).Some?
    ensures Inv(tape, Run(tape, ops).value)
    decreases |ops|
  {
    if ops != [] {
      RunKeeps(tape, ops[..|ops| - 1]);
      StepKeeps(tape, Run(tape, ops[..|ops| - 1]).value, ops[|ops| - 1]);
    }
  }

  // ---------------------------------------------------------------- numbering and order

  lemma {:induction false} CallsMonotone(log: seq<Event>, p: nat, q: nat, name: string)
    requires p <= q <= |log|
    ensures Calls(log[..p], name) <= Calls(log[..q], name)
    ensures p < q && IsCall(log[p], name) ==> Calls(log[..p], name) < Calls(log[..q], name)
    decreases q
  {
    if p < q {
      assert log[..q][..q - 1] == log[..q - 1];
      CallsMonotone(log, p, q - 1, name);
    }
  }

  // In every run that does not fail: the n Go calls of a sandbox are numbered
  // 0 to n - 1 in order, and all seed calls come before all reverse calls.
  lemma {:induction false} CallsAreOrdered(tape: Tape, ops: seq<Op>, p: nat, q: nat, name: string)
    requires Run(tape, ops).Some? && p < q < |Run(tape, ops).value.log|
    requires IsCall(Run(tape, ops).value.log[p], name) && IsCall(Run(tape, ops).value.log[q], name)
    ensures var log := Run(tape, ops).value.log;
            && log[p].index == Calls(log[..p], name) < log[q].index < Calls(log, name)
            && (log[p].Reversed? ==> log[q].Reversed?)
  {
    RunKeeps(tape, ops);
    var log := Run(tape, ops).value.log;
    assert Placed(tape, log, p) && Placed(tape, log, q);
    CallsMonotone(log, p, q, name);
    CallsMonotone(log, q, |log|, name);
    assert log[..|log|] == log;
    assert forall e :: e in log[..p] ==> e in log[..q];
  }

  // Every number below n is used.
  lemma {:induction false} EveryNumberIsUsed(tape: Tape, log: seq<Event>, name: string, k: nat) returns (p: nat)
    requires (forall i :: 0 <= i < |log| ==> Placed(tape, log, i)) && k < Calls(log, name)
    ensures p < |log| && IsCall(log[p], name) && log[p].index == k
    decreases |log|
  {
    var front, last := log[..|log| - 1], |log| - 1;
    if k < Calls(front, name) {
      forall i | 0 <= i < |front| ensures Placed(tape, front, i) {
        assert front + [log[last]] == log;
        PlacedEarlier(tape, front, log[last], i);
      }
      p := EveryNumberIsUsed(tape, front, name, k);
    } else {
      p := last;
      assert Placed(tape, log, last);
    }
  }

  // No recorded delta is applied in a sandbox after Rust ran there.
  lemma {:induction false} NoSeedAfterRust(tape: Tape, ops: seq<Op>, p: nat, q: nat, name: string)
    requires Run(tape, ops).Some? && p < q < |Run(tape, ops).value.log|
    requires Run(tape, ops).value.log[p] == RustRan(name)
    ensures !(Run(tape, ops).value.log[q].Seeded? && Run(tape, ops).value.log[q].name == name)
  {
    RunKeeps(tape, ops);
    var log := Run(tape, ops).value.log;
    assert Placed(tape, log, q);
    assert log[..q][p] == log[p];
  }

  // ---------------------------------------------------------------- the closing count

  lemma {:induction false} NoHash(index: nat)
    ensures '#' !in N.Digits(index, 10)
  {
    var s := N.Digits(index, 10);
    forall k | 0 <= k < |s| ensures s[k] != '#' {
      assert N.IsDigit(s[k], 10);
    }
  }

  // The last '#' of a key is the one after the name.
  lemma {:induction false} LastHash(a: string, i: nat)
    ensures |a| < |Key(a, i)| && Key(a, i)[|a|] == '#'
    ensures forall k :: |a| < k < |Key(a, i)| ==> Key(a, i)[k] != '#'
  {
    NoHash(i);
    var s := N.Digits(i, 10);
    forall k | |a| < k < |Key(a, i)| ensures Key(a, i)[k] == s[k - |a| - 1] {
    }
  }

  lemma {:induction false} KeyLength(a: string, i: nat, b: string, j: nat)
    requires Key(a, i) == Key(b, j)
    ensures |b| <= |a|
  {
    LastHash(a, i);
    LastHash(b, j);
  }

  // A key names one sandbox and one number, also where names hold a '#'.
  lemma {:induction false} KeyInjective(a: string, i: nat, b: string, j: nat)
    requires Key(a, i) == Key(b, j)
    ensures a == b && i == j
  {
    KeyLength(a, i, b, j);
    KeyLength(b, j, a, i);
    assert Key(a, i)[..|a|] == a && Key(b, j)[..|b|] == b;
    assert Key(a, i)[|a| + 1..] == N.Digits(i, 10) && Key(b, j)[|b| + 1..] == N.Digits(j, 10);
    N.DigitsInjective(i, j, 10);
  }

  lemma {:induction false} ReliedFrom(log: seq<Event>, key: string)
    requires key in Relied(log)
    ensures exists q :: 0 <= q < |log| && log[q].Reversed? && key == Key(log[q].name, log[q].index)
    decreases |log|
  {
    var front, last := log[..|log| - 1], log[|log| - 1];
    if key in Relied(front) {
      ReliedFrom(front, key);
      var q :| 0 <= q < |front| && front[q].Reversed? && key == Key(front[q].name, front[q].index);
      assert log[q] == front[q];
    }
  }

  // No verdict is relied on twice.
  lemma {:induction false} ReliedDistinct(tape: Tape, log: seq<Event>)
    requires forall p :: 0 <= p < |log| ==> Placed(tape, log, p)
    ensures forall i, j :: 0 <= i < j < |Relied(log)| ==> Relied(log)[i] != Relied(log)[j]
    ensures forall i :: 0 <= i < |Relied(log)| ==> Relied(log)[i] in tape.attested
    decreases |log|
  {
    if log != [] {
      var front, last := log[..|log| - 1], log[|log| - 1];
      assert front + [last] == log;
      forall p | 0 <= p < |front| ensures Placed(tape, front, p) {
        PlacedEarlier(tape, front, last, p);
      }
      ReliedDistinct(tape, front);
      assert Placed(tape, log, |front|);
      if last.Reversed? {
        NewKey(tape, log);
      }
    }
  }

  lemma {:induction false} NewKey(tape: Tape, log: seq<Event>)
    requires log != [] && log[|log| - 1].Reversed? && forall p :: 0 <= p < |log| ==> Placed(tape, log, p)
    ensures Key(log[|log| - 1].name, log[|log| - 1].index) !in Relied(log[..|log| - 1])
  {
    var front, last := log[..|log| - 1], log[|log| - 1];
    var key := Key(last.name, last.index);
    if key in Relied(front) {
      ReliedFrom(front, key);
      var q :| 0 <= q < |front| && front[q].Reversed? && key == Key(front[q].name, front[q].index);
      KeyInjective(last.name, last.index, front[q].name, front[q].index);
      assert Placed(tape, log, q) && Placed(tape, log, |front|);
      assert log[q] == front[q];
      CallsMonotone(log, q, |front|, last.name);
    }
  }

  function AsSet(s: seq<string>): set<string> { set x | x in s }

  lemma {:induction false} DistinctCount(s: seq<string>)
    requires forall i, j :: 0 <= i < j < |s| ==> s[i] != s[j]
    ensures |AsSet(s)| == |s|
    decreases |s|
  {
    if s != [] {
      DistinctCount(s[..|s| - 1]);
      assert AsSet(s) == AsSet(s[..|s| - 1]) + {s[|s| - 1]};
    }
  }

  lemma {:induction false} FullSubset(a: set<string>, b: set<string>)
    requires a <= b && |a| == |b|
    ensures a == b
  {
    assert a + (b - a) == b;
    assert |a + (b - a)| == |a| + |b - a|;
  }

  // If a run that did not fail passes the closing count, its reverse calls and
  // the attested verdicts correspond one to one.
  lemma {:induction false} ClosingCountMeansAll(tape: Tape, ops: seq<Op>)
    requires Run(tape, ops).Some? && Run(tape, ops).value.count.reverses == |tape.attested|
    ensures var relied := Relied(Run(tape, ops).value.log);
            && AsSet(relied) == tape.attested.Keys
            && forall i, j :: 0 <= i < j < |relied| ==> relied[i] != relied[j]
  {
    RunKeeps(tape, ops);
    var log := Run(tape, ops).value.log;
    ReliedDistinct(tape, log);
    DistinctCount(Relied(log));
    FullSubset(AsSet(Relied(log)), tape.attested.Keys);
  }
}
