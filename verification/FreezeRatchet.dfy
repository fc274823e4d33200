// The freeze step and its ratchet: a recomputed digest never silently becomes
// a merely recorded one. scripts/rust-port/fixtures_verify.py
module FreezeRatchet {
  import opened Wrappers
  import opened FreezeManifest
  import opened FreezeWrite
  import opened FreezeDigests

  type Entries = map<string, Entry>

  // The sidecar as JSON text; reading what was written gives it back.
  datatype Codec = Codec(encode: Entries -> string, decode: string -> Option<Entries>)
  {
    ghost predicate Valid() { forall m :: decode(encode(m)) == Some(m) }
  }

  // The entries of the sidecar on disk; none if it is missing or unreadable.
  function Stored(codec: Codec, disk: Disk): Entries
  {
    if ORACLE !in disk then map[]
    else match codec.decode(disk[ORACLE]) case None => map[] case Some(m) => m
  }

  predicate IsRecomputed(m: Entries, id: string) { id in m && m[id].Recomputed? }

  // Entries that were recomputed and would no longer be.
  function Downgraded(before: Entries, after: Entries): set<string>
  {
    set id | id in after && IsRecomputed(before, id) && !after[id].Recomputed?
  }

  // --write: refused, or both manifests written.
  function Write(env: Env, codec: Codec, disk: Disk, entries: Entries, allowDowngrade: bool): (Disk, bool)
    requires env.Valid()
  {
    if !allowDowngrade && Downgraded(Stored(codec, disk), entries) != {} then (disk, true)
    else (Freeze(env, disk, codec.encode(entries)), false)
  }

  // The working tree a freeze runs in.
  class Tree {
    var disk: Disk

    constructor (disk: Disk)
      ensures this.disk == disk
    {
      this.disk := disk;
    }

    method FindDowngraded(before: Entries, after: Entries) returns (ids: set<string>)
      ensures ids == Downgraded(before, after)
    {
      ids := {};
      var rest := after.Keys;
      while rest != {}
        invariant rest <= after.Keys
        invariant ids == set id | id in after.Keys - rest && IsRecomputed(before, id) && !after[id].Recomputed?
        decreases |rest|
      {
        var id :| id in rest;
        if id in before && before[id].Recomputed? && !after[id].Recomputed? {
          ids := ids + {id};
        }
        rest := rest - {id};
      }
    }

    method WriteManifest(env: Env)
      requires env.Valid()
      modifies this
      ensures disk == Written(env, old(disk))
    {
      var files := FrozenFiles(env, disk);
      assert Enumerates(files, FrozenSet(env, disk));
      disk := disk[MANIFEST := ManifestText(env, disk, files)];
    }

    // The freeze as it runs.
    method WriteAll(env: Env, codec: Codec, entries: Entries, allowDowngrade: bool) returns (refused: bool)
      requires env.Valid()
      modifies this
      ensures (disk, refused) == Write(env, codec, old(disk), entries, allowDowngrade)
    {
      if ORACLE in disk && !allowDowngrade {
        var downgraded := FindDowngraded(Stored(codec, disk), entries);
        if downgraded != {} {
          return true;
        }
      }
      WriteManifest(env);
      disk := disk[ORACLE := codec.encode(entries)];
      WriteManifest(env);
      return false;
    }
  }

  // ---------------------------------------------------------------- one freeze

  // What a freeze stores is what it was given.
  lemma {:induction false} FreezeStores(env: Env, codec: Codec, disk: Disk, entries: Entries)
    requires env.Valid() && codec.Valid()
    ensures Stored(codec, Freeze(env, disk, codec.encode(entries))) == entries
  {
    ManifestIsNotOracle();
  }

  // A refused freeze changes nothing, and it is refused exactly if some entry
  // would be downgraded.
  lemma {:induction false} RefusedIff(env: Env, codec: Codec, disk: Disk, entries: Entries)
    requires env.Valid() && codec.Valid()
    ensures var (after, refused) := Write(env, codec, disk, entries, false);
            && (refused <==> exists id :: id in entries && IsRecomputed(Stored(codec, disk), id) && !IsRecomputed(entries, id))
            && (refused ==> after == disk)
            && (!refused ==> Stored(codec, after) == entries)
  {
    FreezeStores(env, codec, disk, entries);
    var d := Downgraded(Stored(codec, disk), entries);
    if d != {} {
      var id :| id in d;
    }
    if id :| id in entries && IsRecomputed(Stored(codec, disk), id) && !IsRecomputed(entries, id) {
      assert id in d;
    }
  }

  // The byte check and the digest check that follow a write that was not
  // refused are both clean exactly if every frozen path can be listed and every
  // ref that a digest was recomputed from still resolves and is held.
  lemma {:induction false} WriteThenCheckIff(env: Env, codec: Codec, git: Git, later: Git, h: Hash, disk: Disk,
                                             recs: seq<Record>, generatorRef: Option<string>, allowDowngrade: bool)
    requires env.Valid() && codec.Valid() && DistinctIds(recs) && Later(git, later, Build(git, h, recs, generatorRef))
    requires !Write(env, codec, disk, Build(git, h, recs, generatorRef), allowDowngrade).1
    ensures var entries := Build(git, h, recs, generatorRef);
            var after := Write(env, codec, disk, entries, allowDowngrade).0;
            CleanCheck(env, after, []) && CleanDigests(later, h, Stored(codec, after), recs) <==>
              AllPrintable(env, after) && forall id :: id in entries ==> RefHolds(later, entries[id])
  {
    var entries := Build(git, h, recs, generatorRef);
    FreezeStores(env, codec, disk, entries);
    FreezeIsCleanIff(env, disk, codec.encode(entries));
    FreshCheckIff(git, later, h, recs, generatorRef);
  }

  // ---------------------------------------------------------------- many freezes

  // Between freezes anything but the sidecar may change.
  datatype Step = Edit(changed: map<Path, string>, removed: set<Path>) | Refreeze(entries: Entries)

  predicate LeavesSidecar(step: Step) { step.Edit? ==> ORACLE !in step.changed && ORACLE !in step.removed }

  function Apply(env: Env, codec: Codec, disk: Disk, step: Step): Disk
    requires env.Valid()
  {
    match step
    case Edit(changed, removed) => (disk - removed) + changed
    case Refreeze(entries) => Write(env, codec, disk, entries, false).0
  }

  function Run(env: Env, codec: Codec, disk: Disk, steps: seq<Step>): Disk
    requires env.Valid()
    decreases |steps|
  {
    if steps == [] then disk else Run(env, codec, Apply(env, codec, disk, steps[0]), steps[1..])
  }

  // A write of these entries over the stored ones is accepted.
  predicate Accepted(stored: Entries, entries: Entries)
  {
    forall id :: id in entries && IsRecomputed(stored, id) ==> IsRecomputed(entries, id)
  }

  // What a step leaves stored.
  function Next(stored: Entries, step: Step): Entries
  {
    if step.Refreeze? && Accepted(stored, step.entries) then step.entries else stored
  }

  // Every write that is accepted holds the entry.
  predicate AcceptedHold(stored: Entries, steps: seq<Step>, id: string)
    decreases |steps|
  {
    steps != [] ==>
      && (steps[0].Refreeze? && Accepted(stored, steps[0].entries) ==> id in steps[0].entries)
      && AcceptedHold(Next(stored, steps[0]), steps[1..], id)
  }

  lemma {:induction false} StepStores(env: Env, codec: Codec, disk: Disk, step: Step)
    requires env.Valid() && codec.Valid() && LeavesSidecar(step)
    ensures Stored(codec, Apply(env, codec, disk, step)) == Next(Stored(codec, disk), step)
  {
    if step.Refreeze? {
      RefusedIff(env, codec, disk, step.entries);
    }
  }

  // One step keeps a recomputed entry exactly if it is no write, or is
  // refused, or holds the entry.
  lemma {:induction false} StepKeepsIff(env: Env, codec: Codec, disk: Disk, step: Step, id: string)
    requires env.Valid() && codec.Valid() && LeavesSidecar(step) && IsRecomputed(Stored(codec, disk), id)
    ensures IsRecomputed(Stored(codec, Apply(env, codec, disk, step)), id) <==>
      step.Edit? || Write(env, codec, disk, step.entries, false).1 || id in step.entries
  {
    if step.Refreeze? {
      RefusedIff(env, codec, disk, step.entries);
    }
  }

  ghost predicate RecomputedThroughout(env: Env, codec: Codec, disk: Disk, steps: seq<Step>, id: string)
    requires env.Valid()
  {
    forall n :: 0 <= n <= |steps| ==> IsRecomputed(Stored(codec, Run(env, codec, disk, steps[..n])), id)
  }

  lemma {:induction false} ThroughoutStep(env: Env, codec: Codec, disk: Disk, steps: seq<Step>, id: string)
    requires env.Valid() && steps != [] && IsRecomputed(Stored(codec, disk), id)
    ensures RecomputedThroughout(env, codec, disk, steps, id)
        <==> RecomputedThroughout(env, codec, Apply(env, codec, disk, steps[0]), steps[1..], id)
  {
    forall n | 0 < n <= |steps|
      ensures Run(env, codec, disk, steps[..n]) == Run(env, codec, Apply(env, codec, disk, steps[0]), steps[1..][..n - 1])
    {
      assert steps[..n][1..] == steps[1..][..n - 1];
    }
    if RecomputedThroughout(env, codec, disk, steps, id) {
      forall m | 0 <= m <= |steps[1..]|
        ensures IsRecomputed(Stored(codec, Run(env, codec, Apply(env, codec, disk, steps[0]), steps[1..][..m])), id)
      {
        assert IsRecomputed(Stored(codec, Run(env, codec, disk, steps[..m + 1])), id);
      }
    }
  }

  // Over any number of freezes, accepted or refused, with any edits between
  // them, a recomputed entry stays so at every point exactly if every accepted
  // freeze holds it.
  lemma {:induction false} RatchetIff(env: Env, codec: Codec, disk: Disk, steps: seq<Step>, id: string)
    requires env.Valid() && codec.Valid()
    requires forall i :: 0 <= i < |steps| ==> LeavesSidecar(steps[i])
    requires IsRecomputed(Stored(codec, disk), id)
    ensures RecomputedThroughout(env, codec, disk, steps, id) <==> AcceptedHold(Stored(codec, disk), steps, id)
    decreases |steps|
  {
    if steps != [] {
      var after := Apply(env, codec, disk, steps[0]);
      ThroughoutStep(env, codec, disk, steps, id);
      StepStores(env, codec, disk, steps[0]);
      if IsRecomputed(Stored(codec, after), id) {
        RatchetIff(env, codec, after, steps[1..], id);
      } else {
        assert steps[1..][..0] == [];
        assert !IsRecomputed(Stored(codec, Run(env, codec, after, steps[1..][..0])), id);
      }
    }
  }

  predicate PresentInAll(steps: seq<Step>, id: string)
  {
    forall i :: 0 <= i < |steps| && steps[i].Refreeze? ==> id in steps[i].entries
  }

  lemma {:induction false} PresentIsHeld(stored: Entries, steps: seq<Step>, id: string)
    requires PresentInAll(steps, id)
    ensures AcceptedHold(stored, steps, id)
    decreases |steps|
  {
    if steps != [] {
      PresentIsHeld(Next(stored, steps[0]), steps[1..], id);
    }
  }

  // In particular an entry that every freeze holds stays recomputed once it is.
  lemma {:induction false} RatchetHolds(env: Env, codec: Codec, disk: Disk, steps: seq<Step>, id: string)
    requires env.Valid() && codec.Valid()
    requires forall i :: 0 <= i < |steps| ==> LeavesSidecar(steps[i])
    requires PresentInAll(steps, id) && IsRecomputed(Stored(codec, disk), id)
    ensures IsRecomputed(Stored(codec, Run(env, codec, disk, steps)), id)
  {
    PresentIsHeld(Stored(codec, disk), steps, id);
    RatchetIff(env, codec, disk, steps, id);
    assert steps[..|steps|] == steps;
  }

  // An entry that is left out of an accepted freeze may come back as merely
  // recorded.
  lemma {:induction false} RatchetForgets(env: Env, codec: Codec, disk: Disk, id: string, claim: string)
    requires env.Valid() && codec.Valid()
    ensures var steps := [Refreeze(map[]), Refreeze(map[id := Recorded(Source, claim)])];
            !IsRecomputed(Stored(codec, Run(env, codec, disk, steps)), id)
  {
    var first, second := map[], map[id := Recorded(Source, claim)];
    var steps := [Refreeze(first), Refreeze(second)];
    RefusedIff(env, codec, disk, first);
    var middle := Apply(env, codec, disk, Refreeze(first));
    RefusedIff(env, codec, middle, second);
    assert steps[1..] == [Refreeze(second)] && steps[1..][1..] == [];
    assert Run(env, codec, middle, steps[1..]) == Run(env, codec, Apply(env, codec, middle, Refreeze(second)), []);
  }
}
