// Where the cursor of the ar(1) reader goes, and exactly when it goes round for
// ever: `read_ar` of scripts/rust-port/release_contract.py.
module ArCursor {
  import opened Wrappers
  import opened Text
  import opened Utf8
  import opened Ar
  import N = Numerals

  // The cursor after n turns from pos; None if the loop ends before.
  function Steps(tr: int -> Turn, pos: int, n: nat): Option<int>
    decreases n
  {
    if n == 0 then Some(pos)
    else
      match tr(pos)
      case Go(_, next) => Steps(tr, next, n - 1)
      case _ => None
  }

  lemma {:induction false} StepsAdd(tr: int -> Turn, pos: int, a: nat, b: nat)
    requires Steps(tr, pos, a).Some?
    ensures Steps(tr, pos, a + b) == Steps(tr, Steps(tr, pos, a).value, b)
    decreases a
  {
    if a > 0 {
      StepsAdd(tr, tr(pos).next, a - 1, b);
    }
  }

  lemma {:induction false} StepsBefore(tr: int -> Turn, pos: int, a: nat, b: nat)
    requires a <= b && Steps(tr, pos, b).Some?
    ensures Steps(tr, pos, a).Some?
    decreases a
  {
    if a > 0 {
      StepsBefore(tr, tr(pos).next, a - 1, b - 1);
    }
  }

  // A cursor that comes back goes on for ever.
  lemma {:induction false} RoundAndRound(tr: int -> Turn, pos: int, d: nat, m: nat)
    requires d > 0 && Steps(tr, pos, d) == Some(pos)
    ensures Steps(tr, pos, m).Some?
    decreases m
  {
    if m <= d {
      StepsBefore(tr, pos, m, d);
    } else {
      StepsAdd(tr, pos, d, m - d);
      RoundAndRound(tr, pos, d, m - d);
    }
  }

  // The loop always has another turn.
  ghost predicate NeverEnds(tr: int -> Turn, start: int)
  {
    forall n: nat :: Steps(tr, start, n).Some?
  }

  // The positions seen are those of earlier turns.
  ghost predicate Visited(tr: int -> Turn, start: int, n: nat, seen: set<int>)
  {
    forall p :: p in seen ==> exists k: nat :: k < n && Steps(tr, start, k) == Some(p)
  }

  lemma {:induction false} VisitedMore(tr: int -> Turn, start: int, n: nat, seen: set<int>, pos: int)
    requires Visited(tr, start, n, seen) && Steps(tr, start, n) == Some(pos)
    ensures Visited(tr, start, n + 1, seen + {pos})
  {
    forall p | p in seen + {pos} ensures exists k: nat :: k < n + 1 && Steps(tr, start, k) == Some(p) {
      if p in seen {
        var k: nat :| k < n && Steps(tr, start, k) == Some(p);
        assert k < n + 1;
      } else {
        assert n < n + 1 && Steps(tr, start, n) == Some(p);
      }
    }
  }

  // The cursor is at the same position after a turns and after b.
  ghost predicate SamePlace(tr: int -> Turn, start: int, a: nat, b: nat)
  {
    a < b && Steps(tr, start, a).Some? && Steps(tr, start, a) == Steps(tr, start, b)
  }

  ghost predicate ComesBack(tr: int -> Turn, start: int)
  {
    exists a: nat, b: nat :: SamePlace(tr, start, a, b)
  }

  lemma {:induction false} BackIsForEver(tr: int -> Turn, start: int, a: nat, b: nat)
    requires SamePlace(tr, start, a, b)
    ensures NeverEnds(tr, start)
  {
    var pos := Steps(tr, start, a).value;
    StepsAdd(tr, start, a, b - a);
    forall m: nat ensures Steps(tr, start, m).Some? {
      if m <= a {
        StepsBefore(tr, start, m, a);
      } else {
        StepsAdd(tr, start, a, m - a);
        RoundAndRound(tr, pos, b - a, m - a);
      }
    }
  }

  lemma {:induction false} EndsHere(tr: int -> Turn, start: int, n: nat, pos: int)
    requires Steps(tr, start, n) == Some(pos) && !tr(pos).Go?
    ensures !NeverEnds(tr, start)
  {
    StepsAdd(tr, start, n, 1);
    assert Steps(tr, pos, 1) == None;
  }

  // From any point of it, the reading is endless exactly if the loop always has
  // another turn, and that is exactly if the cursor comes back to a position.
  lemma {:induction false} EndlessFrom(tr: int -> Turn, near: set<int>, start: int, n: nat, pos: int,
                                       out: seq<Member>, seen: set<int>)
    requires Within(tr, near) && Visited(tr, start, n, seen) && Steps(tr, start, n) == Some(pos)
    ensures ReadFrom(tr, near, pos, out, seen).Endless? <==> NeverEnds(tr, start)
    ensures NeverEnds(tr, start) <==> ComesBack(tr, start)
    decreases near - seen
  {
    if pos in seen {
      var k: nat :| k < n && Steps(tr, start, k) == Some(pos);
      assert SamePlace(tr, start, k, n);
      BackIsForEver(tr, start, k, n);
    } else if tr(pos).Go? {
      StepsAdd(tr, start, n, 1);
      assert Steps(tr, pos, 1) == Some(tr(pos).next);
      VisitedMore(tr, start, n, seen, pos);
      OneFewer(near, seen, pos);
      EndlessFrom(tr, near, start, n + 1, tr(pos).next, Put(out, tr(pos).member), seen + {pos});
    } else {
      EndsHere(tr, start, n, pos);
      if a: nat, b: nat :| SamePlace(tr, start, a, b) {
        BackIsForEver(tr, start, a, b);
      }
    }
  }

  // The reading of an archive is endless exactly if the loop always has another
  // turn, and that is exactly if the cursor comes back to a position.
  lemma {:induction false} EndlessIff(data: string)
    requires MAGIC <= data
    ensures var tr := Turns(Utf8Decoder(), data);
            (ReadArchive(data).Endless? <==> NeverEnds(tr, 8)) && (NeverEnds(tr, 8) <==> ComesBack(tr, 8))
  {
    var tr := Turns(Utf8Decoder(), data);
    TurnsAreNear(Utf8Decoder(), data);
    EndlessFrom(tr, Positions(data), 8, 0, 8, [], {});
  }

  // ---------------------------------------------------------------- negative sizes

  // The size in the header at a position.
  function SizeAt(dec: Decoder, data: string, pos: int): Option<int>
  {
    SizeOf(dec, Slice(Slice(data, pos, pos + 60), 48, 58))
  }

  lemma {:induction false} TurnSize(dec: Decoder, data: string, pos: int)
    requires Turns(dec, data)(pos).Go?
    ensures SizeAt(dec, data, pos).Some? && Turns(dec, data)(pos).next == After(pos, SizeAt(dec, data, pos).value)
  {
  }

  // A turn moves the cursor forward exactly if the size is at least -59, and
  // leaves it where it is exactly for -60 and -61.
  lemma {:induction false} AdvancesIff(dec: Decoder, data: string, pos: int)
    requires Turns(dec, data)(pos).Go?
    ensures SizeAt(dec, data, pos).Some?
    ensures Turns(dec, data)(pos).next > pos <==> SizeAt(dec, data, pos).value >= -59
    ensures Turns(dec, data)(pos).next == pos <==> SizeAt(dec, data, pos).value == -60 || SizeAt(dec, data, pos).value == -61
  {
    TurnSize(dec, data, pos);
    AfterIff(pos, SizeAt(dec, data, pos).value, Turns(dec, data)(pos).next);
  }

  lemma {:induction false} AfterIff(pos: int, size: int, next: int)
    requires next == After(pos, size)
    ensures (next > pos <==> size >= -59) && (next == pos <==> size == -60 || size == -61)
  {
  }

  // Every turn the loop gets to moves the cursor forward.
  ghost predicate MovesForward(tr: int -> Turn, start: int)
  {
    forall n: nat :: Steps(tr, start, n).Some? ==> Forward(tr, Steps(tr, start, n).value)
  }

  predicate Forward(tr: int -> Turn, pos: int) { tr(pos).Go? ==> tr(pos).next > pos }

  lemma {:induction false} FurtherOn(tr: int -> Turn, start: int, a: nat, b: nat)
    requires MovesForward(tr, start) && a <= b && Steps(tr, start, b).Some?
    ensures Steps(tr, start, a).Some? && Steps(tr, start, a).value + (b - a) <= Steps(tr, start, b).value
    decreases b - a
  {
    StepsBefore(tr, start, a, b);
    if a < b {
      StepsBefore(tr, start, b - 1, b);
      FurtherOn(tr, start, a, b - 1);
      var pos := Steps(tr, start, b - 1).value;
      StepsAdd(tr, start, b - 1, 1);
      assert Forward(tr, pos) && Steps(tr, pos, 1) == Some(Steps(tr, start, b).value);
      assert Steps(tr, pos, 1) == Some(tr(pos).next);
    }
  }

  lemma {:induction false} ForwardNeverBack(tr: int -> Turn, start: int)
    requires MovesForward(tr, start)
    ensures !ComesBack(tr, start)
  {
    forall a: nat, b: nat ensures !SamePlace(tr, start, a, b) {
      if a < b && Steps(tr, start, b).Some? {
        FurtherOn(tr, start, a, b);
      }
    }
  }

  // The header after n turns, if the loop gets there, has a size of at least -59.
  ghost predicate SmallAfter(dec: Decoder, data: string, tr: int -> Turn, n: nat)
  {
    Steps(tr, 8, n).Some? && SizeAt(dec, data, Steps(tr, 8, n).value).Some? ==>
      SizeAt(dec, data, Steps(tr, 8, n).value).value >= -59
  }

  // An archive is read to an end if no header the loop gets to has a size below
  // -59, whatever its blobs hold.
  lemma {:induction false} SmallSizesEnd(data: string)
    requires MAGIC <= data && forall n: nat :: SmallAfter(Utf8Decoder(), data, Turns(Utf8Decoder(), data), n)
    ensures !ReadArchive(data).Endless? && !NeverEnds(Turns(Utf8Decoder(), data), 8)
  {
    EndlessIff(data);
    SmallIsForward(Utf8Decoder(), data, Turns(Utf8Decoder(), data));
    ForwardNeverBack(Turns(Utf8Decoder(), data), 8);
  }

  lemma {:induction false} SmallIsForward(dec: Decoder, data: string, tr: int -> Turn)
    requires tr == Turns(dec, data) && forall n: nat :: SmallAfter(dec, data, tr, n)
    ensures MovesForward(tr, 8)
  {
    forall n: nat | Steps(tr, 8, n).Some? ensures Forward(tr, Steps(tr, 8, n).value) {
      assert SmallAfter(dec, data, tr, n);
      if tr(Steps(tr, 8, n).value).Go? {
        AdvancesIff(dec, data, Steps(tr, 8, n).value);
      }
    }
  }

  // A first size of -60 or -61 keeps the reader at the first header for ever.
  lemma {:induction false} StuckAtFirst(data: string)
    requires MAGIC <= data && Turns(Utf8Decoder(), data)(8).Go? && SizeAt(Utf8Decoder(), data, 8) in {Some(-60), Some(-61)}
    ensures ReadArchive(data) == Endless
  {
    AdvancesIff(Utf8Decoder(), data, 8);
    TurnsAreNear(Utf8Decoder(), data);
    StuckReads(Turns(Utf8Decoder(), data), Positions(data), 8);
  }

  lemma {:induction false} StuckReads(tr: int -> Turn, near: set<int>, pos: int)
    requires Within(tr, near) && tr(pos).Go? && tr(pos).next == pos
    ensures ReadFrom(tr, near, pos, [], {}) == Endless
  {
    ReadOn(tr, near, pos, [], {});
    assert pos in {} + {pos};
  }

  // ---------------------------------------------------------------- such an archive

  lemma {:induction false} ReadsMinusSixty(text: string)
    requires text == "-60       "
    ensures N.ReadInt(Strip(text), 10, N.TextSpace()) == Some(-60)
  {
    var s := "-60";
    StripPadded("", s, "       ");
    assert "" + s + "       " == text;
    assert N.Digits(6, 10) == "6" && N.Digits(60, 10) == "60";
    assert N.Trim(s, N.TextSpace()) == s && s[1..] == "60";
    N.UngroupedDigits("60", 10);
  }

  // A header in ASCII with this name and size is read with them.
  lemma {:induction false} FirstHeader(name: string, size: string, n: int, data: string)
    requires |name| == 16 && |size| == 10 && Ascii(name) && Ascii(size) && data == MAGIC + (name + STAMP + size + "`\n")
    requires N.ReadInt(Strip(size), 10, N.TextSpace()) == Some(n)
    ensures MAGIC <= data && Turns(Utf8Decoder(), data)(8).Go? && SizeAt(Utf8Decoder(), data, 8) == Some(n)
  {
    var h := name + STAMP + size + "`\n";
    SliceMiddle(MAGIC, h, "");
    assert MAGIC + h + "" == data && Slice(data, 8, 68) == h;
    assert Slice(h, 48, 58) == size && Upto(h, 16) == name;
    AsciiIsItself(name);
    AsciiIsItself(size);
  }

  // A member whose size field holds -60.
  lemma {:induction false} MinusSixtyIsEndless(data: string, name: string, size: string)
    requires name == "a/              " && size == "-60       " && data == MAGIC + (name + STAMP + size + "`\n")
    ensures ReadArchive(data) == Endless
  {
    ReadsMinusSixty(size);
    FirstHeader(name, size, -60, data);
    StuckAtFirst(data);
  }
}
