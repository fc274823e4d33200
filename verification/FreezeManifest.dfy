// The byte manifest of the frozen fixtures: its text, how it is read, the
// byte check and the two-stage write of scripts/rust-port/fixtures_verify.py.
module FreezeManifest {
  import opened Wrappers
  import opened Text

  type Path = string
  type Disk = map<Path, string>

  const MANIFEST: Path := "testdata/port/FROZEN.sha256"
  const ORACLE: Path := "testdata/port/FROZEN.oracle.json"

  lemma ManifestIsNotOracle()
    ensures MANIFEST != ORACLE
  {
    assert |MANIFEST| != |ORACLE|;
  }

  // The outside world: which paths the frozen globs match, sorted(), SHA-256.
  datatype Env = Env(frozen: Path -> bool, sorted: set<Path> -> seq<Path>, sha: string -> string)
  {
    ghost predicate Valid()
    {
      && frozen(ORACLE)
      && (forall s :: Enumerates(sorted(s), s))
      && (forall b :: IsHash(sha(b)))
    }
  }

  // Every element once.
  ghost predicate Enumerates(ps: seq<Path>, s: set<Path>)
  {
    && (forall p :: p in s <==> p in ps)
    && (forall i, j :: 0 <= i < j < |ps| ==> ps[i] != ps[j])
  }

  predicate IsHexChar(c: char) { '0' <= c <= '9' || 'a' <= c <= 'f' }

  predicate IsHash(h: string) { |h| == 64 && forall k :: 0 <= k < 64 ==> IsHexChar(h[k]) }

  // The frozen files on disk; the manifest never lists itself.
  function FrozenSet(env: Env, disk: Disk): set<Path>
  {
    set p | p in disk && env.frozen(p) && p != MANIFEST
  }

  function FrozenFiles(env: Env, disk: Disk): seq<Path> { env.sorted(FrozenSet(env, disk)) }

  // ---------------------------------------------------------------- manifest text

  // The characters str.splitlines() breaks at.
  predicate IsBreak(c: char)
  {
    var n := c as int;
    0x0A <= n <= 0x0D || 0x1C <= n <= 0x1E || n == 0x85 || n == 0x2028 || n == 0x2029
  }

  predicate NoBreak(s: string) { forall k :: 0 <= k < |s| ==> !IsBreak(s[k]) }

  // A path that survives being written on a manifest line.
  predicate Printable(p: Path) { p != "" && !IsSpace(p[0]) && NoBreak(p) }

  function ManifestLine(hash: string, p: Path): string { hash + "  " + p }

  function ManifestText(env: Env, disk: Disk, files: seq<Path>): string
    requires forall p :: p in files ==> p in disk
  {
    if files == [] then ""
    else ManifestLine(env.sha(disk[files[0]]), files[0]) + "\n" + ManifestText(env, disk, files[1..])
  }

  // The non-empty lines of a text.
  function LinesOf(s: string, line: string): seq<string>
    decreases |s|
  {
    if s == "" then Finish(line)
    else if IsBreak(s[0]) then Finish(line) + LinesOf(s[1..], "")
    else LinesOf(s[1..], line + [s[0]])
  }

  function Finish(line: string): seq<string> { if line == "" then [] else [line] }

  // The hash and the path on a line: 64 hexadecimal digits, two spaces, a path
  // that starts with no space.
  function ParseLine(line: string): Option<(string, Path)>
  {
    if |line| > 66 && IsHash(line[..64]) && line[64] == ' ' && line[65] == ' ' && !IsSpace(line[66])
    then Some((line[..64], line[66..]))
    else None
  }

  datatype Failure =
    | NoManifest
    | Malformed(line: string)
    | Duplicate(path: Path)
    | Unlisted(path: Path)
    | Differs(path: Path)
    | Vanished(path: Path)
    | NoFixture(selection: Path)

  datatype Listing = Listing(entries: map<Path, string>, failures: seq<Failure>)

  function ReadLines(lines: seq<string>, acc: Listing): Listing
    decreases |lines|
  {
    if lines == [] then acc else ReadLines(lines[1..], ReadLine(lines[0], acc))
  }

  function ReadLine(line: string, acc: Listing): Listing
  {
    match ParseLine(line)
    case None => acc.(failures := acc.failures + [Malformed(line)])
    case Some((hash, p)) =>
      Listing(acc.entries[p := hash], if p in acc.entries then acc.failures + [Duplicate(p)] else acc.failures)
  }

  function ReadManifest(disk: Disk): Listing
  {
    if MANIFEST !in disk then Listing(map[], [NoManifest])
    else ReadLines(LinesOf(disk[MANIFEST], ""), Listing(map[], []))
  }

  // The reader as it runs.
  method ParseManifest(disk: Disk) returns (listing: Listing)
    ensures listing == ReadManifest(disk)
  {
    if MANIFEST !in disk {
      return Listing(map[], [NoManifest]);
    }
    var lines := LinesOf(disk[MANIFEST], "");
    var entries: map<Path, string>, failures: seq<Failure> := map[], [];
    var i := 0;
    while i < |lines|
      invariant 0 <= i <= |lines|
      invariant ReadLines(lines[i..], Listing(entries, failures)) == ReadManifest(disk)
    {
      ReadLinesAt(lines, i, Listing(entries, failures));
      var parsed := ParseLine(lines[i]);
      if parsed.None? {
        failures := failures + [Malformed(lines[i])];
      } else {
        var (hash, p) := parsed.value;
        if p in entries {
          failures := failures + [Duplicate(p)];
        }
        entries := entries[p := hash];
      }
      i := i + 1;
    }
    return Listing(entries, failures);
  }

  lemma {:induction false} ReadLinesAt(lines: seq<string>, i: nat, acc: Listing)
    requires i < |lines|
    ensures ReadLines(lines[i..], acc) == ReadLines(lines[i + 1..], ReadLine(lines[i], acc))
  {
    assert lines[i..][1..] == lines[i + 1..];
  }

  // ---------------------------------------------------------------- the byte check

  predicate Under(p: Path, selection: Path)
  {
    p == selection || StripSlashes(selection) + "/" <= p
  }

  predicate InScope(p: Path, selected: seq<Path>)
  {
    selected == [] || exists i :: 0 <= i < |selected| && Under(p, selected[i])
  }

  // What is wrong with one frozen file.
  function FileFailure(env: Env, disk: Disk, entries: map<Path, string>, selected: seq<Path>, p: Path): seq<Failure>
  {
    if !InScope(p, selected) then []
    else if p !in entries then [Unlisted(p)]
    else if p !in disk || env.sha(disk[p]) != entries[p] then [Differs(p)]
    else []
  }

  // The frozen files that are listed with the hash they have.
  function Matching(env: Env, disk: Disk, entries: map<Path, string>, files: seq<Path>, selected: seq<Path>): nat
  {
    if files == [] then 0
    else
      var p := files[|files| - 1];
      Matching(env, disk, entries, files[..|files| - 1], selected)
      + if InScope(p, selected) && FileFailure(env, disk, entries, selected, p) == [] then 1 else 0
  }

  method CheckFiles(env: Env, disk: Disk, entries: map<Path, string>, files: seq<Path>, selected: seq<Path>)
    returns (failures: seq<Failure>, checked: nat)
    ensures forall f :: f in failures <==> exists p :: p in files && f in FileFailure(env, disk, entries, selected, p)
    ensures checked == Matching(env, disk, entries, files, selected)
  {
    failures, checked := [], 0;
    var i := 0;
    while i < |files|
      invariant 0 <= i <= |files|
      invariant forall f :: f in failures <==> exists p :: p in files[..i] && f in FileFailure(env, disk, entries, selected, p)
      invariant checked == Matching(env, disk, entries, files[..i], selected)
    {
      var p := files[i];
      assert files[..i + 1] == files[..i] + [p];
      ghost var before := failures;
      if InScope(p, selected) {
        if p !in entries {
          failures := failures + [Unlisted(p)];
        } else if p !in disk || env.sha(disk[p]) != entries[p] {
          failures := failures + [Differs(p)];
        } else {
          checked := checked + 1;
        }
      }
      assert failures == before + FileFailure(env, disk, entries, selected, p);
      i := i + 1;
    }
    assert files[..|files|] == files;
  }

  method CheckListed(entries: map<Path, string>, files: seq<Path>, selected: seq<Path>) returns (failures: seq<Failure>)
    ensures forall f :: f in failures <==> exists p :: p in entries && InScope(p, selected) && p !in files && f == Vanished(p)
  {
    failures := [];
    var rest := entries.Keys;
    while rest != {}
      invariant rest <= entries.Keys
      invariant forall f :: f in failures <==>
        exists p :: p in entries.Keys - rest && InScope(p, selected) && p !in files && f == Vanished(p)
      decreases |rest|
    {
      var p :| p in rest;
      if InScope(p, selected) && p !in files {
        failures := failures + [Vanished(p)];
      }
      rest := rest - {p};
    }
  }

  method CheckSelected(files: seq<Path>, selected: seq<Path>) returns (failures: seq<Failure>)
    ensures forall f :: f in failures <==> exists s :: s in selected && !HasFixture(files, s) && f == NoFixture(s)
  {
    failures := [];
    for i := 0 to |selected|
      invariant forall f :: f in failures <==> exists s :: s in selected[..i] && !HasFixture(files, s) && f == NoFixture(s)
    {
      assert selected[..i + 1] == selected[..i] + [selected[i]];
      if !HasFixture(files, selected[i]) {
        failures := failures + [NoFixture(selected[i])];
      }
    }
    assert selected[..|selected|] == selected;
  }

  predicate HasFixture(files: seq<Path>, selection: Path)
  {
    exists i :: 0 <= i < |files| && Under(files[i], selection)
  }

  // What the byte check reports.
  ghost predicate Reported(env: Env, disk: Disk, files: seq<Path>, selected: seq<Path>, f: Failure)
  {
    var listing := ReadManifest(disk);
    || f in listing.failures
    || (exists p :: p in files && f in FileFailure(env, disk, listing.entries, selected, p))
    || (exists p :: p in listing.entries && InScope(p, selected) && p !in files && f == Vanished(p))
    || (exists s :: s in selected && !HasFixture(files, s) && f == NoFixture(s))
  }

  // The byte check as it runs.
  method CheckBytes(env: Env, disk: Disk, files: seq<Path>, selected: seq<Path>) returns (failures: seq<Failure>, checked: nat)
    ensures forall f :: f in failures <==> Reported(env, disk, files, selected, f)
    ensures checked == Matching(env, disk, ReadManifest(disk).entries, files, selected)
  {
    var listing := ParseManifest(disk);
    var wrong, vanished, empty;
    wrong, checked := CheckFiles(env, disk, listing.entries, files, selected);
    vanished := CheckListed(listing.entries, files, selected);
    empty := CheckSelected(files, selected);
    failures := listing.failures + wrong + vanished + empty;
  }
}
