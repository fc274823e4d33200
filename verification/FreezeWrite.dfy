// When the byte check is clean, and that the two-stage write makes it so:
// scripts/rust-port/fixtures_verify.py.
module FreezeWrite {
  import opened Wrappers
  import opened FreezeManifest

  // ---------------------------------------------------------------- when the check is clean

  ghost predicate CleanCheck(env: Env, disk: Disk, selected: seq<Path>)
  {
    forall f :: !Reported(env, disk, FrozenFiles(env, disk), selected, f)
  }

  // The manifest has no malformed and no duplicate line.
  predicate WellRead(disk: Disk) { ReadManifest(disk).failures == [] }

  // On the selected paths, the manifest lists exactly the frozen files, each
  // with the hash of its bytes.
  ghost predicate ListsFrozen(env: Env, disk: Disk, selected: seq<Path>)
  {
    var entries := ReadManifest(disk).entries;
    forall p :: InScope(p, selected) ==>
      && (p in entries <==> p in FrozenSet(env, disk))
      && (p in entries ==> p in disk && entries[p] == env.sha(disk[p]))
  }

  // The check is clean exactly if the manifest is well read, agrees with the
  // frozen files wherever it is asked to, and every selection has a fixture.
  lemma {:induction false} CleanIff(env: Env, disk: Disk, selected: seq<Path>)
    requires env.Valid()
    ensures CleanCheck(env, disk, selected) <==>
      && WellRead(disk) && ListsFrozen(env, disk, selected)
      && forall s :: s in selected ==> HasFixture(FrozenFiles(env, disk), s)
  {
    var files, listing := FrozenFiles(env, disk), ReadManifest(disk);
    assert Enumerates(files, FrozenSet(env, disk));
    if CleanCheck(env, disk, selected) {
      CleanMeansListed(env, disk, selected);
    }
  }

  lemma {:induction false} CleanMeansListed(env: Env, disk: Disk, selected: seq<Path>)
    requires env.Valid() && CleanCheck(env, disk, selected)
    ensures WellRead(disk) && ListsFrozen(env, disk, selected)
    ensures forall s :: s in selected ==> HasFixture(FrozenFiles(env, disk), s)
  {
    var files, listing := FrozenFiles(env, disk), ReadManifest(disk);
    assert Enumerates(files, FrozenSet(env, disk));
    assert listing.failures == [] || Reported(env, disk, files, selected, listing.failures[0]);
    forall p | InScope(p, selected) && p in FrozenSet(env, disk)
      ensures p in listing.entries && listing.entries[p] == env.sha(disk[p])
    {
      assert !Reported(env, disk, files, selected, Unlisted(p));
      assert !Reported(env, disk, files, selected, Differs(p));
    }
    forall p | InScope(p, selected) && p in listing.entries
      ensures p in FrozenSet(env, disk)
    {
      assert !Reported(env, disk, files, selected, Vanished(p));
    }
    forall s | s in selected ensures HasFixture(files, s) {
      assert !Reported(env, disk, files, selected, NoFixture(s));
    }
  }

  // ---------------------------------------------------------------- the manifest reads back

  lemma {:induction false} LineEndsAt(a: string, rest: string, line: string)
    requires NoBreak(a)
    ensures LinesOf(a + "\n" + rest, line) == Finish(line + a) + LinesOf(rest, "")
    decreases |a|
  {
    var s := a + "\n" + rest;
    if a == "" {
      assert s[1..] == rest;
      assert line + a == line;
    } else {
      assert s[1..] == a[1..] + "\n" + rest;
      LineEndsAt(a[1..], rest, line + [a[0]]);
      assert line + [a[0]] + a[1..] == line + a;
    }
  }

  lemma {:induction false} LineIsRead(hash: string, p: Path)
    requires IsHash(hash) && Printable(p)
    ensures NoBreak(ManifestLine(hash, p)) && ParseLine(ManifestLine(hash, p)) == Some((hash, p))
  {
    var line := ManifestLine(hash, p);
    assert line[..64] == hash && line[66..] == p;
    forall k | 0 <= k < |line| ensures !IsBreak(line[k]) {
      assert k < 64 ==> line[k] == hash[k];
      assert k >= 66 ==> line[k] == p[k - 66];
    }
  }

  // The hashes of the files, added to a map one by one.
  function Hashes(env: Env, disk: Disk, files: seq<Path>, acc: map<Path, string>): map<Path, string>
    requires forall p :: p in files ==> p in disk
  {
    if files == [] then acc else Hashes(env, disk, files[1..], acc[files[0] := env.sha(disk[files[0]])])
  }

  lemma {:induction false} HashesAre(env: Env, disk: Disk, files: seq<Path>, acc: map<Path, string>)
    requires forall p :: p in files ==> p in disk
    ensures var m := Hashes(env, disk, files, acc);
            forall p :: (p in m <==> p in acc || p in files)
                        && (p in files ==> m[p] == env.sha(disk[p]))
                        && (p in acc && p !in files ==> m[p] == acc[p])
    decreases |files|
  {
    if files != [] {
      HashesAre(env, disk, files[1..], acc[files[0] := env.sha(disk[files[0]])]);
    }
  }

  // A written manifest is read back as the hashes of its files, with nothing
  // to complain about.
  lemma {:induction false} TextIsRead(env: Env, disk: Disk, files: seq<Path>, acc: map<Path, string>)
    requires env.Valid() && forall p :: p in files ==> p in disk && Printable(p) && p !in acc
    requires forall i, j :: 0 <= i < j < |files| ==> files[i] != files[j]
    ensures ReadLines(LinesOf(ManifestText(env, disk, files), ""), Listing(acc, []))
         == Listing(Hashes(env, disk, files, acc), [])
    decreases |files|
  {
    if files != [] {
      var hash, p := env.sha(disk[files[0]]), files[0];
      var rest := ManifestText(env, disk, files[1..]);
      LineIsRead(hash, p);
      LineEndsAt(ManifestLine(hash, p), rest, "");
      assert "" + ManifestLine(hash, p) == ManifestLine(hash, p);
      LinesStep(ManifestLine(hash, p), LinesOf(rest, ""), Listing(acc, []));
      TextIsRead(env, disk, files[1..], acc[p := hash]);
    }
  }

  lemma {:induction false} LinesStep(line: string, more: seq<string>, acc: Listing)
    ensures ReadLines([line] + more, acc) == ReadLines(more, ReadLine(line, acc))
  {
    assert ([line] + more)[1..] == more;
  }

  // ---------------------------------------------------------------- the write

  function Written(env: Env, disk: Disk): Disk
    requires env.Valid()
  {
    assert Enumerates(FrozenFiles(env, disk), FrozenSet(env, disk));
    disk[MANIFEST := ManifestText(env, disk, FrozenFiles(env, disk))]
  }

  // --write: the manifest, the sidecar, and the manifest again now that the
  // sidecar is there to be listed.
  function Freeze(env: Env, disk: Disk, sidecar: string): Disk
    requires env.Valid()
  {
    Written(env, Written(env, disk)[ORACLE := sidecar])
  }

  // The manifest is not one of the files it lists.
  lemma {:induction false} WritingKeepsFiles(env: Env, disk: Disk, text: string)
    ensures FrozenFiles(env, disk[MANIFEST := text]) == FrozenFiles(env, disk)
  {
    assert FrozenSet(env, disk[MANIFEST := text]) == FrozenSet(env, disk);
  }

  ghost predicate AllPrintable(env: Env, disk: Disk)
  {
    forall p :: p in FrozenSet(env, disk) ==> Printable(p)
  }

  lemma {:induction false} WrittenListing(env: Env, disk: Disk)
    requires env.Valid() && AllPrintable(env, disk)
    ensures ReadManifest(Written(env, disk)) == Listing(Hashes(env, disk, FrozenFiles(env, disk), map[]), [])
  {
    var files := FrozenFiles(env, disk);
    assert Enumerates(files, FrozenSet(env, disk));
    TextIsRead(env, disk, files, map[]);
  }

  lemma {:induction false} WrittenIsClean(env: Env, disk: Disk)
    requires env.Valid() && AllPrintable(env, disk)
    ensures CleanCheck(env, Written(env, disk), [])
  {
    var files, after := FrozenFiles(env, disk), Written(env, disk);
    assert Enumerates(files, FrozenSet(env, disk));
    WrittenListing(env, disk);
    WritingKeepsFiles(env, disk, after[MANIFEST]);
    assert FrozenSet(env, after) == FrozenSet(env, disk);
    HashesAre(env, disk, files, map[]);
    CleanIff(env, after, []);
  }

  // ---------------------------------------------------------------- exactly when

  lemma {:induction false} LinesHaveNoBreaks(s: string, line: string)
    requires NoBreak(line)
    ensures forall l :: l in LinesOf(s, line) ==> NoBreak(l)
    decreases |s|
  {
    if s != "" {
      if IsBreak(s[0]) {
        LinesHaveNoBreaks(s[1..], "");
      } else {
        LinesHaveNoBreaks(s[1..], line + [s[0]]);
      }
    }
  }

  lemma {:induction false} ReadKeysPrintable(lines: seq<string>, acc: Listing)
    requires forall l :: l in lines ==> NoBreak(l)
    requires forall p :: p in acc.entries ==> Printable(p)
    ensures forall p :: p in ReadLines(lines, acc).entries ==> Printable(p)
    decreases |lines|
  {
    if lines != [] {
      assert NoBreak(lines[0]);
      ReadKeysPrintable(lines[1..], ReadLine(lines[0], acc));
    }
  }

  // Whatever the manifest holds, only printable paths can be read from it.
  lemma {:induction false} ListedIsPrintable(disk: Disk)
    ensures forall p :: p in ReadManifest(disk).entries ==> Printable(p)
  {
    if MANIFEST in disk {
      LinesHaveNoBreaks(disk[MANIFEST], "");
      ReadKeysPrintable(LinesOf(disk[MANIFEST], ""), Listing(map[], []));
    }
  }

  // After the two-stage write the byte check is clean exactly if every frozen
  // path is printable; then the manifest lists the sidecar and not itself.
  lemma {:induction false} FreezeIsCleanIff(env: Env, disk: Disk, sidecar: string)
    requires env.Valid()
    ensures var after := Freeze(env, disk, sidecar);
            && (CleanCheck(env, after, []) <==> AllPrintable(env, after))
            && MANIFEST !in FrozenSet(env, after) && ORACLE in FrozenSet(env, after)
            && (CleanCheck(env, after, []) ==>
                  ORACLE in ReadManifest(after).entries && MANIFEST !in ReadManifest(after).entries)
  {
    ManifestIsNotOracle();
    var middle := Written(env, disk)[ORACLE := sidecar];
    var after := Freeze(env, disk, sidecar);
    assert FrozenSet(env, after) == FrozenSet(env, middle);
    CleanIff(env, after, []);
    if AllPrintable(env, after) {
      WrittenIsClean(env, middle);
    } else {
      ListedIsPrintable(after);
    }
  }
}
