// The digest sidecar of the frozen fixtures: how digests are classified at
// --write time and re-derived by every check.
// scripts/rust-port/fixtures_verify.py
module FreezeDigests {
  import opened Wrappers
  import opened FreezeManifest

  // The git object store: commits a name resolves to, commits held by a branch
  // or tag, and blobs.
  datatype Git = Git(resolve: string -> Option<string>, held: string -> bool, blob: (string, string) -> Option<string>)

  // SHA-256, the digest of a path -> hash map, and sorted().
  datatype Hash = Hash(sha: string -> string, mapDigest: map<string, string> -> string, sorted: seq<string> -> seq<string>)

  // Which of the provenance variants: with the module files, sorted, with a
  // closing NUL after each file.
  datatype Algo = Algo(modules: bool, ordered: bool, closing: bool)

  const ALGOS: seq<Algo> := [
    Algo(false, false, true), Algo(false, false, false), Algo(false, true, true), Algo(false, true, false),
    Algo(true, false, true), Algo(true, false, false), Algo(true, true, true), Algo(true, true, false)]

  datatype Kind = Source | SourcePin | Generator | Other

  datatype Claim = Claim(kind: Kind, key: string, value: string)

  const PER_FILE: string := "source_files[sha256]"

  // An oracle block of a fixture: what it names and which digests it claims.
  datatype Block = Block(sources: Option<seq<string>>, hashes: map<string, string>, generators: Option<seq<string>>,
                         commit: Option<string>)

  // One digest claim, with where it stands.
  datatype Record = Record(fixture: Path, pointer: string, claim: Claim, block: Block)
  {
    function Id(): string { fixture + "#" + pointer + "#" + claim.key }
  }

  datatype How = PerFile | ByAlgo(algo: Algo)

  datatype Entry =
    | Recorded(kind: Kind, value: string)
    | Recomputed(kind: Kind, value: string, how: How, ref: string)

  // ---------------------------------------------------------------- digests

  predicate IsModuleFile(name: string) { name == "go.mod" || name == "go.sum" }

  function Enforced(names: seq<string>): seq<string>
  {
    if names == [] then []
    else (if IsModuleFile(names[0]) then [] else [names[0]]) + Enforced(names[1..])
  }

  function AlgoNames(h: Hash, algo: Algo, names: seq<string>): seq<string>
  {
    var chosen := if algo.modules then names else Enforced(names);
    if algo.ordered then h.sorted(chosen) else chosen
  }

  // What is hashed: name NUL content (NUL) of each blob; None if one is missing.
  function Payload(git: Git, commit: string, names: seq<string>, closing: bool): Option<string>
  {
    if names == [] then Some("")
    else
      match git.blob(commit, names[0])
      case None => None
      case Some(data) =>
        match Payload(git, commit, names[1..], closing)
        case None => None
        case Some(rest) => Some(names[0] + "\0" + data + (if closing then "\0" else "") + rest)
  }

  function EntryDigest(git: Git, h: Hash, commit: string, algo: Algo, names: seq<string>): Option<string>
  {
    var chosen := AlgoNames(h, algo, names);
    if chosen == [] then None
    else
      match Payload(git, commit, chosen, algo.closing)
      case None => None
      case Some(text) => Some(h.sha(text))
  }

  function PerFileDigest(git: Git, h: Hash, commit: string, files: map<string, string>): Option<string>
  {
    if files == map[] then None
    else if forall name :: name in files ==>
              git.blob(commit, name).Some? && h.sha(git.blob(commit, name).value) == files[name]
    then Some(h.mapDigest(files))
    else None
  }

  // The digest as the check rebuilds it from the blobs at `ref`.
  function Rebuilt(git: Git, h: Hash, rec: Record, how: How, ref: string): Option<string>
  {
    match how
    case PerFile =>
      if PerFileDigest(git, h, ref, rec.block.hashes).Some? then Some(h.mapDigest(rec.block.hashes)) else None
    case ByAlgo(algo) => EntryDigest(git, h, ref, algo, NamesFor(rec))
  }

  function NamesFor(rec: Record): seq<string>
  {
    match (if rec.claim.kind == Generator then rec.block.generators else rec.block.sources)
    case None => []
    case Some(names) => names
  }

  // ---------------------------------------------------------------- classification

  // The first reference and variant, in order, that rebuild the claimed digest.
  function FirstRebuild(git: Git, h: Hash, rec: Record, refs: seq<string>, algos: seq<Algo>): Option<(Algo, string)>
    decreases |refs|, |algos|
  {
    if refs == [] then None
    else if algos == [] then FirstRebuild(git, h, rec, refs[1..], ALGOS)
    else if Rebuilt(git, h, rec, ByAlgo(algos[0]), refs[0]) == Some(rec.claim.value) then Some((algos[0], refs[0]))
    else FirstRebuild(git, h, rec, refs, algos[1..])
  }

  function ResolvedCommit(git: Git, block: Block): Option<string>
  {
    match block.commit case None => None case Some(c) => git.resolve(c)
  }

  function Candidates(git: Git, rec: Record, generatorRef: Option<string>): seq<string>
  {
    var full := match ResolvedCommit(git, rec.block) case None => [] case Some(c) => [c];
    if rec.claim.kind == Generator && generatorRef.Some? && generatorRef.value !in full
    then full + [generatorRef.value] else full
  }

  function Classify(git: Git, h: Hash, rec: Record, generatorRef: Option<string>): Entry
  {
    var kind, value := rec.claim.kind, rec.claim.value;
    var full := ResolvedCommit(git, rec.block);
    if kind == Other then Recorded(kind, value)
    else if rec.claim.key == PER_FILE then
      if full.Some? && PerFileDigest(git, h, full.value, rec.block.hashes) == Some(value)
      then Recomputed(kind, value, PerFile, full.value) else Recorded(kind, value)
    else
      match FirstRebuild(git, h, rec, Candidates(git, rec, generatorRef), ALGOS)
      case None => Recorded(kind, value)
      case Some((algo, ref)) => Recomputed(kind, value, ByAlgo(algo), ref)
  }

  // The double loop over references and variants as it runs.
  method FindRebuild(git: Git, h: Hash, rec: Record, refs: seq<string>) returns (r: Option<(Algo, string)>)
    ensures r == FirstRebuild(git, h, rec, refs, ALGOS)
  {
    var i := 0;
    while i < |refs|
      invariant 0 <= i <= |refs|
      invariant FirstRebuild(git, h, rec, refs[i..], ALGOS) == FirstRebuild(git, h, rec, refs, ALGOS)
    {
      var j := 0;
      while j < |ALGOS|
        invariant 0 <= j <= |ALGOS|
        invariant FirstRebuild(git, h, rec, refs[i..], ALGOS[j..]) == FirstRebuild(git, h, rec, refs, ALGOS)
      {
        var algo := ALGOS[j];
        assert ALGOS[j..][1..] == ALGOS[j + 1..];
        if Rebuilt(git, h, rec, ByAlgo(algo), refs[i]) == Some(rec.claim.value) {
          return Some((algo, refs[i]));
        }
        j := j + 1;
      }
      assert refs[i..][1..] == refs[i + 1..];
      i := i + 1;
    }
    return None;
  }

  // The classification as it runs.
  method ClassifyEntry(git: Git, h: Hash, rec: Record, generatorRef: Option<string>) returns (e: Entry)
    ensures e == Classify(git, h, rec, generatorRef)
  {
    var full := ResolvedCommit(git, rec.block);
    if rec.claim.kind != Other {
      if rec.claim.key == PER_FILE {
        if full.Some? && PerFileDigest(git, h, full.value, rec.block.hashes) == Some(rec.claim.value) {
          return Recomputed(rec.claim.kind, rec.claim.value, PerFile, full.value);
        }
      } else {
        var found := FindRebuild(git, h, rec, Candidates(git, rec, generatorRef));
        if found.Some? {
          return Recomputed(rec.claim.kind, rec.claim.value, ByAlgo(found.value.0), found.value.1);
        }
      }
    }
    return Recorded(rec.claim.kind, rec.claim.value);
  }

  // The entries of the sidecar.
  function Build(git: Git, h: Hash, recs: seq<Record>, generatorRef: Option<string>): map<string, Entry>
  {
    if recs == [] then map[]
    else
      var last := recs[|recs| - 1];
      Build(git, h, recs[..|recs| - 1], generatorRef)[last.Id() := Classify(git, h, last, generatorRef)]
  }

  method BuildManifest(git: Git, h: Hash, recs: seq<Record>, generatorRef: Option<string>) returns (entries: map<string, Entry>)
    ensures entries == Build(git, h, recs, generatorRef)
  {
    entries := map[];
    for i := 0 to |recs|
      invariant entries == Build(git, h, recs[..i], generatorRef)
    {
      assert recs[..i + 1][..i] == recs[..i];
      var rec := recs[i];
      var entry := ClassifyEntry(git, h, rec, generatorRef);
      entries := entries[rec.Id() := entry];
    }
    assert recs[..|recs|] == recs;
  }

  // ---------------------------------------------------------------- the check

  datatype Problem =
    | NotRecorded(id: string)
    | ClaimChanged(id: string)
    | RefMissing(id: string)
    | RefUnheld(id: string)
    | Mismatch(id: string)
    | Absent(id: string)

  // What the check finds wrong with one claim.
  function RecordProblem(git: Git, h: Hash, stored: map<string, Entry>, rec: Record): Option<Problem>
  {
    var id := rec.Id();
    if id !in stored then Some(NotRecorded(id))
    else
      var want := stored[id];
      if want.value != rec.claim.value then Some(ClaimChanged(id))
      else if want.Recorded? then None
      else
        match git.resolve(want.ref)
        case None => Some(RefMissing(id))
        case Some(full) =>
          if !git.held(full) then Some(RefUnheld(id))
          else if Rebuilt(git, h, rec, want.how, want.ref) != Some(rec.claim.value) then Some(Mismatch(id))
          else None
  }

  function Ids(recs: seq<Record>): set<string> { set i | 0 <= i < |recs| :: recs[i].Id() }

  // The part of an id before its first '#'.
  function FixtureOf(id: string): string
  {
    if id == "" || id[0] == '#' then "" else [id[0]] + FixtureOf(id[1..])
  }

  ghost predicate ProblemReported(git: Git, h: Hash, stored: map<string, Entry>, recs: seq<Record>, selected: seq<Path>, p: Problem)
  {
    || (exists rec :: rec in recs && RecordProblem(git, h, stored, rec) == Some(p))
    || (exists id :: id in stored && InScope(FixtureOf(id), selected) && id !in Ids(recs) && p == Absent(id))
  }

  // The digest check as it runs; `recs` are the claims in scope.
  method CheckDigests(git: Git, h: Hash, stored: map<string, Entry>, recs: seq<Record>, selected: seq<Path>)
    returns (problems: seq<Problem>)
    ensures forall p :: p in problems <==> ProblemReported(git, h, stored, recs, selected, p)
  {
    problems := [];
    var seen: set<string> := {};
    for i := 0 to |recs|
      invariant seen == Ids(recs[..i])
      invariant forall p :: p in problems <==> exists rec :: rec in recs[..i] && RecordProblem(git, h, stored, rec) == Some(p)
    {
      var rec := recs[i];
      assert recs[..i + 1] == recs[..i] + [rec];
      IdsGrow(recs[..i], rec);
      seen := seen + {rec.Id()};
      var problem := RecordProblem(git, h, stored, rec);
      if problem.Some? {
        problems := problems + [problem.value];
      }
    }
    assert recs[..|recs|] == recs;
    var absent := CheckAbsent(stored, seen, selected);
    problems := problems + absent;
  }

  lemma {:induction false} IdsGrow(recs: seq<Record>, rec: Record)
    ensures Ids(recs + [rec]) == Ids(recs) + {rec.Id()}
  {
    forall id | id in Ids(recs) + {rec.Id()} ensures id in Ids(recs + [rec]) {
      if id in Ids(recs) {
        var i :| 0 <= i < |recs| && recs[i].Id() == id;
        assert (recs + [rec])[i] == recs[i];
      } else {
        assert (recs + [rec])[|recs|] == rec;
      }
    }
  }

  method CheckAbsent(stored: map<string, Entry>, seen: set<string>, selected: seq<Path>) returns (problems: seq<Problem>)
    ensures forall p :: p in problems <==>
      exists id :: id in stored && InScope(FixtureOf(id), selected) && id !in seen && p == Absent(id)
  {
    problems := [];
    var rest := stored.Keys;
    while rest != {}
      invariant rest <= stored.Keys
      invariant forall p :: p in problems <==>
        exists id :: id in stored.Keys - rest && InScope(FixtureOf(id), selected) && id !in seen && p == Absent(id)
      decreases |rest|
    {
      var id :| id in rest;
      if InScope(FixtureOf(id), selected) && id !in seen {
        problems := problems + [Absent(id)];
      }
      rest := rest - {id};
    }
  }

  // ---------------------------------------------------------------- what a clean check means

  ghost predicate CleanDigests(git: Git, h: Hash, stored: map<string, Entry>, recs: seq<Record>)
  {
    forall p :: !ProblemReported(git, h, stored, recs, [], p)
  }

  // A claim is vouched for: the sidecar holds the same value, and a recomputed
  // one is rebuilt from blobs at a commit that resolves and is held.
  predicate Vouched(git: Git, h: Hash, stored: map<string, Entry>, rec: Record)
  {
    && rec.Id() in stored && stored[rec.Id()].value == rec.claim.value
    && match stored[rec.Id()]
       case Recorded(_, _) => true
       case Recomputed(_, _, how, ref) =>
         && git.resolve(ref).Some? && git.held(git.resolve(ref).value)
         && Rebuilt(git, h, rec, how, ref) == Some(rec.claim.value)
  }

  // Whatever the sidecar holds, the unrestricted check is clean exactly if
  // every claim is vouched for and the sidecar holds nothing else.
  lemma {:induction false} CleanDigestsIff(git: Git, h: Hash, stored: map<string, Entry>, recs: seq<Record>)
    ensures CleanDigests(git, h, stored, recs) <==>
      && (forall rec :: rec in recs ==> Vouched(git, h, stored, rec))
      && stored.Keys == Ids(recs)
  {
    if CleanDigests(git, h, stored, recs) {
      forall rec | rec in recs ensures Vouched(git, h, stored, rec) {
        assert RecordProblem(git, h, stored, rec) == None
            || !ProblemReported(git, h, stored, recs, [], RecordProblem(git, h, stored, rec).value);
      }
      forall id | id in stored ensures id in Ids(recs) {
        assert !ProblemReported(git, h, stored, recs, [], Absent(id));
      }
      forall id | id in Ids(recs) ensures id in stored {
        var i :| 0 <= i < |recs| && recs[i].Id() == id;
        assert recs[i] in recs;
      }
    }
  }

  // ---------------------------------------------------------------- a check after a write

  // What is classified as recomputed is what the check rebuilds.
  lemma {:induction false} FirstRebuildRebuilds(git: Git, h: Hash, rec: Record, refs: seq<string>, algos: seq<Algo>)
    ensures match FirstRebuild(git, h, rec, refs, algos)
            case None => true
            case Some((algo, ref)) => Rebuilt(git, h, rec, ByAlgo(algo), ref) == Some(rec.claim.value)
    decreases |refs|, |algos|
  {
    if refs != [] {
      if algos == [] {
        FirstRebuildRebuilds(git, h, rec, refs[1..], ALGOS);
      } else {
        FirstRebuildRebuilds(git, h, rec, refs, algos[1..]);
      }
    }
  }

  lemma {:induction false} ClassifyRebuilds(git: Git, h: Hash, rec: Record, generatorRef: Option<string>)
    ensures var e := Classify(git, h, rec, generatorRef);
            e.value == rec.claim.value
            && (e.Recomputed? ==> Rebuilt(git, h, rec, e.how, e.ref) == Some(rec.claim.value))
  {
    FirstRebuildRebuilds(git, h, rec, Candidates(git, rec, generatorRef), ALGOS);
  }

  // The ref, if it still resolves, names the blobs it named.
  ghost predicate SameBlobs(git: Git, later: Git, ref: string)
  {
    later.resolve(ref).Some? ==> forall name :: later.blob(ref, name) == git.blob(ref, name)
  }

  // A later state of the store: branches may have moved and refs may be gone,
  // but a ref that an entry was recomputed from does not name other content.
  ghost predicate Later(git: Git, later: Git, stored: map<string, Entry>)
  {
    forall id :: id in stored && stored[id].Recomputed? ==> SameBlobs(git, later, stored[id].ref)
  }

  lemma {:induction false} PayloadStays(git: Git, later: Git, commit: string, names: seq<string>, closing: bool)
    requires SameBlobs(git, later, commit) && later.resolve(commit).Some?
    ensures Payload(later, commit, names, closing) == Payload(git, commit, names, closing)
  {
    if names != [] {
      PayloadStays(git, later, commit, names[1..], closing);
    }
  }

  lemma {:induction false} RebuiltStays(git: Git, later: Git, h: Hash, rec: Record, how: How, ref: string)
    requires SameBlobs(git, later, ref) && later.resolve(ref).Some?
    ensures Rebuilt(later, h, rec, how, ref) == Rebuilt(git, h, rec, how, ref)
  {
    match how
    case PerFile =>
    case ByAlgo(algo) => PayloadStays(git, later, ref, AlgoNames(h, algo, NamesFor(rec)), algo.closing);
  }

  predicate DistinctIds(recs: seq<Record>)
  {
    forall i, j :: 0 <= i < j < |recs| ==> recs[i].Id() != recs[j].Id()
  }

  // Every claim has its own entry.
  ghost predicate Holds(git: Git, h: Hash, recs: seq<Record>, generatorRef: Option<string>, stored: map<string, Entry>)
  {
    && stored.Keys == Ids(recs)
    && forall rec :: rec in recs ==> rec.Id() in stored && stored[rec.Id()] == Classify(git, h, rec, generatorRef)
  }

  lemma {:induction false} HoldsMore(git: Git, h: Hash, front: seq<Record>, last: Record,
                                     generatorRef: Option<string>, stored: map<string, Entry>)
    requires Holds(git, h, front, generatorRef, stored) && forall rec :: rec in front ==> rec.Id() != last.Id()
    ensures Holds(git, h, front + [last], generatorRef, stored[last.Id() := Classify(git, h, last, generatorRef)])
  {
    IdsGrow(front, last);
  }

  lemma {:induction false} BuildHolds(git: Git, h: Hash, recs: seq<Record>, generatorRef: Option<string>)
    requires DistinctIds(recs)
    ensures Holds(git, h, recs, generatorRef, Build(git, h, recs, generatorRef))
    decreases |recs|
  {
    if recs != [] {
      var front, last := recs[..|recs| - 1], recs[|recs| - 1];
      BuildHolds(git, h, front, generatorRef);
      HoldsMore(git, h, front, last, generatorRef, Build(git, h, front, generatorRef));
      assert front + [last] == recs;
    }
  }

  // The commit a recomputed claim was rebuilt from still resolves and is held.
  predicate RefHolds(later: Git, e: Entry)
  {
    e.Recomputed? ==> later.resolve(e.ref).Some? && later.held(later.resolve(e.ref).value)
  }

  // A check against the sidecar that was written from the same fixtures finds
  // a problem only where a commit is gone or no longer held.
  lemma {:induction false} FreshProblem(git: Git, later: Git, h: Hash, stored: map<string, Entry>, rec: Record,
                                        generatorRef: Option<string>)
    requires Later(git, later, stored) && rec.Id() in stored && stored[rec.Id()] == Classify(git, h, rec, generatorRef)
    ensures var e := stored[rec.Id()];
            RecordProblem(later, h, stored, rec) ==
              if RefHolds(later, e) then None
              else if later.resolve(e.ref).None? then Some(RefMissing(rec.Id()))
              else Some(RefUnheld(rec.Id()))
  {
    ClassifyRebuilds(git, h, rec, generatorRef);
    var e := stored[rec.Id()];
    if e.Recomputed? && later.resolve(e.ref).Some? {
      RebuiltStays(git, later, h, rec, e.how, e.ref);
    }
  }

  lemma {:induction false} FreshCheckIff(git: Git, later: Git, h: Hash, recs: seq<Record>, generatorRef: Option<string>)
    requires DistinctIds(recs) && Later(git, later, Build(git, h, recs, generatorRef))
    ensures var stored := Build(git, h, recs, generatorRef);
            && (CleanDigests(later, h, stored, recs) <==> forall id :: id in stored ==> RefHolds(later, stored[id]))
            && forall p :: ProblemReported(later, h, stored, recs, [], p) ==> p.RefMissing? || p.RefUnheld?
  {
    var stored := Build(git, h, recs, generatorRef);
    BuildHolds(git, h, recs, generatorRef);
    forall rec | rec in recs
      ensures rec.Id() in stored
      ensures RecordProblem(later, h, stored, rec) == None <==> RefHolds(later, stored[rec.Id()])
      ensures RecordProblem(later, h, stored, rec).Some? ==>
                RecordProblem(later, h, stored, rec).value.RefMissing? || RecordProblem(later, h, stored, rec).value.RefUnheld?
    {
      FreshProblem(git, later, h, stored, rec, generatorRef);
    }
    FreshClean(later, h, stored, recs);
  }

  lemma {:induction false} FreshClean(later: Git, h: Hash, stored: map<string, Entry>, recs: seq<Record>)
    requires stored.Keys == Ids(recs)
    requires forall rec :: rec in recs ==>
      rec.Id() in stored && (RecordProblem(later, h, stored, rec) == None <==> RefHolds(later, stored[rec.Id()]))
    ensures CleanDigests(later, h, stored, recs) <==> forall id :: id in stored ==> RefHolds(later, stored[id])
  {
    if CleanDigests(later, h, stored, recs) {
      forall id | id in stored ensures RefHolds(later, stored[id]) {
        assert id in Ids(recs);
        var i :| 0 <= i < |recs| && recs[i].Id() == id;
        assert recs[i] in recs;
        assert RecordProblem(later, h, stored, recs[i]) == None
            || !ProblemReported(later, h, stored, recs, [], RecordProblem(later, h, stored, recs[i]).value);
      }
    }
  }
}
