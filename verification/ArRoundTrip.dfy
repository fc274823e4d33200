// Exactly which archives survive being written and read:
// `build_ar` and `read_ar` of scripts/rust-port/release_contract.py.
module ArRoundTrip {
  import opened Wrappers
  import opened Text
  import opened Utf8
  import opened Ar
  import opened ArWalk
  import opened ArEntries
  import N = Numerals

  // ---------------------------------------------------------------- names

  // A name that starts with no space and ends with no slash.
  predicate PlainName(name: string)
  {
    name != "" ==> !IsSpace(name[0]) && name[|name| - 1] != '/'
  }

  lemma {:induction false} SlashesKeepFront(s: string)
    ensures var r := StripSlashes(s); |r| <= |s| && (r != "" ==> r[0] == s[0])
  {
    if s != "" && s[|s| - 1] == '/' {
      SlashesKeepFront(s[..|s| - 1]);
    }
  }

  lemma {:induction false} SlashesEnd(s: string)
    ensures StripSlashes(s) == "" || StripSlashes(s)[|StripSlashes(s)| - 1] != '/'
  {
    if s != "" && s[|s| - 1] == '/' {
      SlashesEnd(s[..|s| - 1]);
    }
  }

  lemma {:induction false} StripStart(s: string)
    ensures Strip(s) == "" || !IsSpace(Strip(s)[0])
  {
  }

  lemma {:induction false} NameIsPlain(text: string)
    ensures PlainName(NameOf(text))
  {
    StripStart(text);
    SlashesKeepFront(Strip(text));
    SlashesEnd(Strip(text));
  }

  lemma {:induction false} LStripIsSuffix(s: string) returns (front: string)
    ensures s == front + LStrip(s)
  {
    if s != "" && IsSpace(s[0]) {
      var f := LStripIsSuffix(s[1..]);
      front := [s[0]] + f;
      PutBack(s[0], f, LStrip(s[1..]));
      assert s == [s[0]] + s[1..];
    } else {
      front := "";
    }
  }

  lemma {:induction false} PutBack(c: char, f: string, rest: string)
    ensures [c] + (f + rest) == [c] + f + rest
  {
  }

  lemma {:induction false} RStripIsPrefix(s: string)
    ensures RStrip(s) <= s
  {
    if s != "" && IsSpace(s[|s| - 1]) {
      RStripIsPrefix(s[..|s| - 1]);
    }
  }

  lemma {:induction false} SlashesArePrefix(s: string)
    ensures StripSlashes(s) <= s
  {
    if s != "" && s[|s| - 1] == '/' {
      SlashesArePrefix(s[..|s| - 1]);
    }
  }

  // A name is no longer than the text it is read from.
  lemma {:induction false} NameIsShorter(text: string)
    ensures |Encode(NameOf(text))| <= |Encode(text)|
    ensures text != "" && !IsSpace(text[0]) ==> NameOf(text) <= text
  {
    var t := LStrip(text);
    var front := LStripIsSuffix(text);
    EncodeConcat(front, t);
    RStripIsPrefix(t);
    SlashesArePrefix(RStrip(t));
    assert NameOf(text) <= t;
    PrefixEncoded(NameOf(text), t);
  }

  lemma {:induction false} SlashSeen(before: string, name: string, pad: string)
    requires Blank(before) && Blank(pad) && PlainName(name)
    ensures NameOf(before + (name + "/") + pad) == name
  {
    var slashed := name + "/";
    StripPadded(before, slashed, pad);
    assert slashed[|slashed| - 1] == '/' && slashed[..|slashed| - 1] == name;
    assert StripSlashes(slashed) == StripSlashes(name) == name;
  }

  lemma {:induction false} SlashUnseen(before: string, name: string)
    requires Blank(before) && PlainName(name) && name != ""
    ensures !IsSpace(name[|name| - 1]) ==> NameOf(before + name) == name
    ensures IsSpace(name[|name| - 1]) ==> |NameOf(before + name)| < |name|
  {
    LStripBlank(before, name);
    assert LStrip(name) == name && Strip(before + name) == RStrip(name);
    if !IsSpace(name[|name| - 1]) {
      assert RStrip(name) == name && StripSlashes(name) == name;
    } else {
      assert RStrip(name) == RStrip(name[..|name| - 1]);
      SlashesKeepFront(RStrip(name));
    }
  }

  // ---------------------------------------------------------------- the name field

  lemma {:induction false} FieldIs(name: string) returns (k: nat)
    ensures Field(name) == Encode(name) + "/" + Spaces(k) && |name| + k >= 15
  {
    k := if |name| < 15 then 15 - |name| else 0;
    assert Padded(name + "/", 16) == name + ("/" + Spaces(k));
    SpacesAreBlank(k);
    EncodeConcat(name, "/" + Spaces(k));
    EncodeAscii("/" + Spaces(k));
    assert Encode(name) + ("/" + Spaces(k)) == Encode(name) + "/" + Spaces(k);
  }

  // The slash is seen.
  lemma {:induction false} SeenWithSlash(before: string, name: string)
    requires Ascii(before) && |before| + |Encode(name)| <= 15
    ensures Decode(NameSeen(before, name)) == Some(before + (name + "/") + Spaces(15 - |before| - |Encode(name)|))
  {
    var k := FieldIs(name);
    var pad := Spaces(15 - |before| - |Encode(name)|);
    var text := before + (name + "/") + pad;
    EncodedLength(name);
    SpacesAreBlank(15 - |before| - |Encode(name)|);
    CutAfterSlash(before, Encode(name), k);
    EncodeParts(before, name, "/" + pad);
    assert before + name + ("/" + pad) == text;
    DecodeEncode(text);
  }

  lemma {:induction false} CutAfterSlash(before: string, bytes: string, k: nat)
    requires |before| + |bytes| <= 15 && |bytes| + k >= 15
    ensures (before + (bytes + "/" + Spaces(k)))[..16] == before + bytes + ("/" + Spaces(15 - |before| - |bytes|))
  {
  }

  lemma {:induction false} EncodeParts(before: string, name: string, after: string)
    requires Ascii(before) && Ascii(after)
    ensures Encode(before + name + after) == before + Encode(name) + after
  {
    EncodeConcat(before + name, after);
    EncodeConcat(before, name);
    EncodeAscii(before);
    EncodeAscii(after);
  }

  // The slash is not seen.
  lemma {:induction false} SeenWithoutSlash(before: string, name: string)
    requires |before| + |Encode(name)| >= 16 >= |before|
    ensures NameSeen(before, name) == before + Encode(name)[..16 - |before|]
  {
    var k := FieldIs(name);
  }

  lemma {:induction false} SeenInFull(before: string, name: string)
    requires Ascii(before) && |before| + |Encode(name)| == 16
    ensures Decode(NameSeen(before, name)) == Some(before + name)
  {
    SeenWithoutSlash(before, name);
    assert Encode(name)[..16 - |before|] == Encode(name);
    EncodeParts(before, name, "");
    assert before + name + "" == before + name && before + Encode(name) + "" == before + Encode(name);
    DecodeEncode(before + name);
  }

  // A name that is read back by a reader some bytes ahead: all of it must be
  // seen, and where its slash is not it must not end with a space. Two bytes
  // ahead, the end of the last header stands before it, and only a name of such
  // ends is read back.
  predicate KeepsName(shift: nat, name: string)
  {
    if shift == 2 then name == Ticks(15)
    else
      && PlainName(name) && shift + |Encode(name)| <= 16
      && (shift + |Encode(name)| == 16 && name != "" ==> !IsSpace(name[|name| - 1]))
  }

  function Ticks(n: nat): (r: string)
    ensures |r| == n && forall k :: 0 <= k < n ==> r[k] == if k % 2 == 0 then '`' else '\n'
  {
    seq(n, k => if k % 2 == 0 then '`' else '\n')
  }

  predicate NameReads(before: string, name: string)
  {
    var text := Decode(NameSeen(before, name)); text.Some? && NameOf(text.value) == name
  }

  // A name that is cut off is not read back.
  lemma {:induction false} CutOffDiffers(before: string, name: string)
    requires (before == "" || before == "\n") && |before| + |Encode(name)| > 16
    ensures !NameReads(before, name)
  {
    var seen := NameSeen(before, name);
    SeenWithoutSlash(before, name);
    if Decode(seen).Some? {
      var text := Decode(seen).value;
      DecodedIs(seen);
      EncodeAscii(before);
      PrefixOf(before, text);
      var rest := text[|before|..];
      assert text == before + rest;
      EncodeConcat(before, rest);
      LStripBlank(before, rest);
      NameIsShorter(rest);
    }
  }

  lemma {:induction false} InFullIff(before: string, name: string)
    requires (before == "" || before == "\n") && |before| + |Encode(name)| == 16
    ensures NameReads(before, name) <==> PlainName(name) && (name != "" ==> !IsSpace(name[|name| - 1]))
  {
    SeenInFull(before, name);
    NameIsPlain(before + name);
    if PlainName(name) && name != "" {
      SlashUnseen(before, name);
    }
  }

  lemma {:induction false} WithSlashIff(before: string, name: string)
    requires (before == "" || before == "\n") && |before| + |Encode(name)| <= 15
    ensures NameReads(before, name) <==> PlainName(name)
  {
    var pad := Spaces(15 - |before| - |Encode(name)|);
    SeenWithSlash(before, name);
    NameIsPlain(before + (name + "/") + pad);
    if PlainName(name) {
      SpacesAreBlank(|pad|);
      SlashSeen(before, name, pad);
    }
  }

  lemma {:induction false} PlainReadsIff(before: string, name: string)
    requires before == "" || before == "\n"
    ensures NameReads(before, name) <==> KeepsName(|before|, name)
  {
    if |before| + |Encode(name)| > 16 {
      CutOffDiffers(before, name);
    } else if |before| + |Encode(name)| == 16 {
      InFullIff(before, name);
    } else {
      WithSlashIff(before, name);
    }
  }

  // ---------------------------------------------------------------- two bytes ahead

  lemma {:induction false} TicksAreAscii(n: nat)
    ensures Ascii(Ticks(n))
  {
  }

  // A name at the front of itself, moved by two, is made of ticks.
  lemma {:induction false} MovedByTwo(name: string, padded: string)
    requires name <= padded && name <= Ticks(2) + padded
    ensures name == Ticks(|name|)
  {
    forall k | 0 <= k < |name| ensures name[k] == Ticks(|name|)[k] {
      TickAt(name, padded, k);
    }
  }

  lemma {:induction false} TickAt(name: string, padded: string, k: nat)
    requires name <= padded && name <= Ticks(2) + padded && k < |name|
    ensures name[k] == if k % 2 == 0 then '`' else '\n'
  {
    assert name[k] == (Ticks(2) + padded)[k];
    if k >= 2 {
      assert name[k] == padded[k - 2] == name[k - 2];
      TickAt(name, padded, k - 2);
    }
  }

  lemma {:induction false} ReadsTicks(name: string)
    requires NameReads(Ticks(2), name)
    ensures name == Ticks(|name|)
  {
    var seen, padded := NameSeen(Ticks(2), name), Padded(name + "/", 16);
    var text := Decode(seen).value;
    DecodedIs(seen);
    TicksAreAscii(2);
    EncodeConcat(Ticks(2), padded);
    EncodeAscii(Ticks(2));
    PrefixOf(text, Ticks(2) + padded);
    EncodedLength(padded);
    assert |seen| == 16 && text != "";
    NameIsShorter(text);
    MovedByTwo(name, padded);
  }

  lemma {:induction false} ShortTicksDiffer(n: nat)
    requires n <= 13
    ensures !NameReads(Ticks(2), Ticks(n))
  {
    var name, pad := Ticks(n), Spaces(13 - n);
    var front := Ticks(2) + name;
    TicksAreAscii(2);
    TicksAreAscii(n);
    EncodeAscii(name);
    SeenWithSlash(Ticks(2), name);
    SpacesAreBlank(13 - n);
    assert Ticks(2) + (name + "/") + pad == "" + (front + "/") + pad;
    SlashSeen("", front, pad);
  }

  lemma {:induction false} LongTicks(n: nat)
    requires n >= 14
    ensures NameReads(Ticks(2), Ticks(n)) <==> n == 15
  {
    var name := Ticks(n);
    TicksAreAscii(n);
    TicksAreAscii(16);
    EncodeAscii(name);
    SeenWithoutSlash(Ticks(2), name);
    assert Ticks(2) + name[..14] == Ticks(16);
    AsciiIsItself(Ticks(16));
    TicksNamed();
  }

  lemma {:induction false} TicksNamed()
    ensures NameOf(Ticks(16)) == Ticks(15)
  {
    var s := Ticks(16);
    assert LStrip(s) == s && s[..15] == Ticks(15);
    assert RStrip(s) == RStrip(s[..15]) == s[..15];
    assert StripSlashes(Ticks(15)) == Ticks(15);
  }

  // A name is read back exactly if it is kept.
  lemma {:induction false} NameIsReadIff(shift: nat, name: string)
    requires shift <= 2
    ensures NameReads(Ends(shift), name) <==> KeepsName(shift, name)
  {
    if shift < 2 {
      PlainReadsIff(Ends(shift), name);
    } else {
      assert Ends(2) == Ticks(2);
      if NameReads(Ticks(2), name) {
        ReadsTicks(name);
      }
      if name == Ticks(|name|) {
        if |name| <= 13 {
          ShortTicksDiffer(|name|);
        } else {
          LongTicks(|name|);
        }
      }
    }
  }

  // ---------------------------------------------------------------- blobs

  predicate AllFeeds(blob: string) { forall k :: 0 <= k < |blob| ==> blob[k] == '\n' }

  // A blob that is read back by a reader t bytes ahead: it repeats the end of
  // its header.
  predicate KeepsBlob(t: nat, blob: string)
  {
    if t == 0 then true else if t == 1 then AllFeeds(blob) else blob == Ticks(|blob|)
  }

  lemma {:induction false} BlobIsReadIff(t: nat, blob: string)
    requires t <= 2
    ensures Upto(Ends(t) + blob, |blob|) == blob <==> KeepsBlob(t, blob)
  {
    var seen := Upto(Ends(t) + blob, |blob|);
    if seen == blob {
      forall k | 0 <= k < |blob| && t > 0 ensures blob[k] == if t == 1 || k % 2 == 1 then '\n' else '`' {
        RepeatsAt(t, blob, k);
      }
    }
    if KeepsBlob(t, blob) {
      forall k | 0 <= k < |blob| ensures seen[k] == blob[k] {
        assert seen[k] == (Ends(t) + blob)[k];
      }
    }
  }

  lemma {:induction false} RepeatsAt(t: nat, blob: string, k: nat)
    requires 1 <= t <= 2 && k < |blob| && Upto(Ends(t) + blob, |blob|) == blob
    ensures blob[k] == if t == 1 || k % 2 == 1 then '\n' else '`'
  {
    assert Upto(Ends(t) + blob, |blob|)[k] == (Ends(t) + blob)[k];
    if k >= t {
      RepeatsAt(t, blob, k - t);
    }
  }

  // Then the entry ends as its header does.
  lemma {:induction false} EntryEnds(pre: string, m: Member, t: nat)
    requires t <= 2 && KeepsBlob(t, m.blob)
    ensures var passed := pre + Entry(m); |passed| >= t && passed[|passed| - t..] == Ends(t)
  {
    var field, size := Field(m.name), Padded(N.Digits(|m.blob|, 10), 10);
    Assembled(pre, field + STAMP + size, "`\n", m.blob, Filler(|m.blob|));
    EndsAlike(pre + (field + STAMP + size), m.blob, t);
  }

  lemma {:induction false} Assembled(pre: string, front: string, end: string, blob: string, filler: string)
    ensures pre + (front + end + blob + filler) == pre + front + end + blob + filler
  {
  }

  lemma {:induction false} EndsAlike(front: string, blob: string, t: nat)
    requires t <= 2 && KeepsBlob(t, blob)
    ensures var s := front + "`\n" + blob + Filler(|blob|); |s| >= t && s[|s| - t..] == Ends(t)
  {
  }

  // ---------------------------------------------------------------- whole archives

  predicate Distinct(ms: seq<Member>)
  {
    forall i, j :: 0 <= i < j < |ms| ==> ms[i].name != ms[j].name
  }

  lemma {:induction false} PutNew(out: seq<Member>, m: Member)
    ensures |Put(out, m)| == |out| + 1 <==> forall i :: 0 <= i < |out| ==> out[i].name != m.name
    ensures |Put(out, m)| == |out| + 1 ==> Put(out, m) == out + [m]
  {
    if out != [] {
      PutNew(out[1..], m);
      assert out[0].name != m.name ==> Put(out, m) == [out[0]] + Put(out[1..], m);
      assert out == [out[0]] + out[1..];
    }
  }

  lemma {:induction false} PutAllGrows(out: seq<Member>, ms: seq<Member>)
    ensures |PutAll(out, ms)| <= |out| + |ms|
    decreases |ms|
  {
    if ms != [] {
      PutAllGrows(Put(out, ms[0]), ms[1..]);
    }
  }

  // Nothing is lost exactly if all names are distinct.
  lemma {:induction false} PutAllKeepsIff(out: seq<Member>, ms: seq<Member>)
    requires Distinct(out)
    ensures |PutAll(out, ms)| == |out| + |ms| <==> Distinct(out + ms)
    ensures Distinct(out + ms) ==> PutAll(out, ms) == out + ms
    decreases |ms|
  {
    if ms == [] {
      assert out + ms == out;
    } else {
      PutNew(out, ms[0]);
      if |Put(out, ms[0])| == |out| + 1 {
        assert out + ms == out + [ms[0]] + ms[1..];
        PutAllKeepsIff(out + [ms[0]], ms[1..]);
      } else {
        PutAllGrows(Put(out, ms[0]), ms[1..]);
        Clash(out, ms);
      }
    }
  }

  lemma {:induction false} Clash(out: seq<Member>, ms: seq<Member>)
    requires ms != [] && exists i :: 0 <= i < |out| && out[i].name == ms[0].name
    ensures !Distinct(out + ms)
  {
    var i :| 0 <= i < |out| && out[i].name == ms[0].name;
    assert (out + ms)[i] == out[i] && (out + ms)[|out|] == ms[0];
  }

  lemma {:induction false} PutAllIsSameIff(ms: seq<Member>, back: seq<Member>)
    requires |back| == |ms|
    ensures PutAll([], back) == ms <==> Distinct(ms) && back == ms
  {
    PutAllKeepsIff([], back);
    assert [] + back == back;
  }

  // The members that are read back by a reader `shift` bytes ahead.
  predicate Kept(ms: seq<Member>, shift: nat)
  {
    ms != [] ==>
      var t := shift + Surplus(ms[0].name);
      t <= 2 && KeepsName(shift, ms[0].name) && KeepsBlob(t, ms[0].blob) && Kept(ms[1..], t)
  }

  lemma {:induction false} MemberIsReadIff(shift: nat, m: Member, t: nat)
    requires t == shift + Surplus(m.name) <= 2
    ensures ReadBack(Utf8Decoder(), Ends(shift), m) == Some(m) <==> KeepsName(shift, m.name) && KeepsBlob(t, m.blob)
  {
    assert |Ends(shift)| == shift;
    NameIsReadIff(shift, m.name);
    BlobIsReadIff(t, m.blob);
  }

  // The turn at the first member gives it back exactly if it is kept.
  lemma {:induction false} TurnIsSameIff(shift: nat, m: Member, pos: int, turn: Turn)
    requires shift <= 2 && turn == Expected(PieceOf(Utf8Decoder(), m), Ends(shift), pos)
    ensures turn.Go? && turn.member == m <==>
      shift + Surplus(m.name) <= 2 && KeepsName(shift, m.name) && KeepsBlob(shift + Surplus(m.name), m.blob)
  {
    assert |Ends(shift)| == shift;
    if shift + Surplus(m.name) <= 2 {
      MemberIsReadIff(shift, m, shift + Surplus(m.name));
    }
  }

  lemma {:induction false} ConsIsSameIff(back: Member, others: Option<seq<Member>>, ms: seq<Member>)
    requires ms != []
    ensures Cons(back, others) == Some(ms) <==> back == ms[0] && others == Some(ms[1..])
  {
    if others.Some? {
      assert ([back] + others.value)[1..] == others.value && ms == [ms[0]] + ms[1..];
    }
  }

  lemma {:induction false} KeptCons(ms: seq<Member>, shift: nat, t: nat)
    requires ms != [] && t == shift + Surplus(ms[0].name)
    ensures Kept(ms, shift) <==>
      t <= 2 && KeepsName(shift, ms[0].name) && KeepsBlob(t, ms[0].blob) && Kept(ms[1..], t)
  {
  }

  lemma {:induction false} FirstKeptIff(ms: seq<Member>, p: Piece, shift: nat, t: nat, pos: int, turn: Turn)
    requires ms != [] && p == PieceOf(Utf8Decoder(), ms[0]) && t == shift + p.surplus && shift <= 2
    requires turn == Expected(p, Ends(shift), pos)
    ensures Kept(ms, shift) <==> turn.Go? && turn.member == ms[0] && Kept(ms[1..], t)
    ensures turn.Go? && turn.member == ms[0] ==> KeepsBlob(t, ms[0].blob)
  {
    KeptCons(ms, shift, t);
    TurnIsSameIff(shift, ms[0], pos, turn);
  }

  // Where the reader is after a member that it gave back.
  lemma {:induction false} AfterSame(pre: string, m: Member, p: Piece, pos: int, shift: nat, t: nat, turn: Turn)
    requires p == PieceOf(Utf8Decoder(), m) && 0 <= pos <= |pre| && shift == |pre| - pos && pre[pos..] == Ends(shift)
    requires t == shift + p.surplus && Fits(p.size, t) && turn == Expected(p, Ends(shift), pos) && turn.Go?
    ensures t <= 2 && 0 <= turn.next == |pre + p.text| - t
    ensures KeepsBlob(t, m.blob) ==> (pre + p.text)[turn.next..] == Ends(t)
  {
    PieceIsSized(m);
    NextPosition(p, pre, pos, t, turn);
    if KeepsBlob(t, m.blob) {
      EntryEnds(pre, m, t);
    }
  }

  // The first of some members, with what its turn says of all of them.
  lemma {:induction false} FirstIff(pre: string, ms: seq<Member>, ps: seq<Piece>, pos: int, shift: nat)
    returns (same: bool, passed: string, next: int, t: nat)
    requires ms != [] && ps == Pieces(Utf8Decoder(), ms) && AllFit(ps, shift)
    requires 0 <= pos <= |pre| && shift == |pre| - pos <= 2 && pre[pos..] == Ends(shift)
    ensures ps[1..] == Pieces(Utf8Decoder(), ms[1..])
    ensures same ==> 0 <= next <= |passed| && t == |passed| - next <= 2 && passed[next..] == Ends(t) && AllFit(ps[1..], t)
    ensures Kept(ms, shift) <==> same && Kept(ms[1..], t)
    ensures AllReadBack(pre, ps, pos) == Some(ms) <==> same && AllReadBack(passed, ps[1..], next) == Some(ms[1..])
  {
    var p, turn := ps[0], Expected(ps[0], Ends(shift), pos);
    t, passed, next := shift + p.surplus, pre + p.text, if turn.Go? then turn.next else 0;
    same := turn.Go? && turn.member == ms[0];
    PiecesCons(Utf8Decoder(), ms);
    FirstKeptIff(ms, p, shift, t, pos, turn);
    if turn.Go? {
      AfterSame(pre, ms[0], p, pos, shift, t, turn);
    }
    FirstReadIff(pre, ms, ps, pos, turn, passed);
  }

  lemma {:induction false} FirstReadIff(pre: string, ms: seq<Member>, ps: seq<Piece>, pos: int, turn: Turn, passed: string)
    requires ms != [] && ps != [] && 0 <= pos <= |pre| && passed == pre + ps[0].text
    requires turn == Expected(ps[0], pre[pos..], pos) && (turn.Go? ==> 0 <= turn.next <= |passed|)
    ensures AllReadBack(pre, ps, pos) == Some(ms) <==>
      turn.Go? && turn.member == ms[0] && AllReadBack(passed, ps[1..], turn.next) == Some(ms[1..])
  {
    ReadBackStep(pre, ps, pos, turn, passed);
    if turn.Go? {
      ConsIsSameIff(turn.member, AllReadBack(passed, ps[1..], turn.next), ms);
    }
  }

  lemma {:induction false} AllReadBackIff(pre: string, ms: seq<Member>, ps: seq<Piece>, pos: int, shift: nat)
    requires ps == Pieces(Utf8Decoder(), ms) && AllFit(ps, shift)
    requires 0 <= pos <= |pre| && shift == |pre| - pos <= 2 && pre[pos..] == Ends(shift)
    ensures AllReadBack(pre, ps, pos) == Some(ms) <==> Kept(ms, shift)
    decreases |ms|
  {
    if ms != [] {
      var same, passed, next, t := FirstIff(pre, ms, ps, pos, shift);
      if same {
        AllReadBackIff(passed, ms[1..], ps[1..], next, t);
      }
    }
  }

  predicate NamesHeld(ms: seq<Member>) { forall i :: 0 <= i < |ms| ==> |Encode(ms[i].name)| <= 16 }

  lemma {:induction false} KeptIsHeld(ms: seq<Member>, shift: nat)
    requires Kept(ms, shift) && shift <= 2
    ensures NamesHeld(ms)
    decreases |ms|
  {
    if ms != [] {
      KeptIsHeld(ms[1..], shift + Surplus(ms[0].name));
      TicksAreAscii(15);
      EncodeAscii(Ticks(15));
      assert forall i :: 1 <= i < |ms| ==> ms[i] == ms[1..][i - 1];
    }
  }

  // `read_ar` inverts `build_ar` exactly on the archives whose names are
  // distinct and whose members are kept.
  lemma {:induction false} RoundTripIff(ms: seq<Member>)
    requires NamesHeld(ms) ==> AllFit(Pieces(Utf8Decoder(), ms), 0)
    ensures ReadArchive(Archive(ms)) == Finished(ms) <==> Distinct(ms) && Kept(ms, 0)
  {
    if !NamesHeld(ms) {
      EveryArchiveIsPlain(Archive(ms));
      if Kept(ms, 0) {
        KeptIsHeld(ms, 0);
      }
    } else {
      var ps := Pieces(Utf8Decoder(), ms);
      ArchiveReads(ms);
      AllReadBackIff(MAGIC, ms, ps, 8, 0);
      OutcomeIsSameIff(ms, ps, MAGIC, 8);
    }
  }

  lemma {:induction false} AllAreRead(pre: string, ps: seq<Piece>, pos: int)
    requires 0 <= pos <= |pre|
    ensures var back := AllReadBack(pre, ps, pos); back.Some? ==> |back.value| == |ps|
    decreases |ps|
  {
    if ps != [] {
      var turn, passed := Expected(ps[0], pre[pos..], pos), pre + ps[0].text;
      if turn.Go? && 0 <= turn.next <= |passed| {
        AllAreRead(passed, ps[1..], turn.next);
      }
    }
  }

  lemma {:induction false} OutcomeIsSameIff(ms: seq<Member>, ps: seq<Piece>, pre: string, pos: int)
    requires |ps| == |ms| && 0 <= pos <= |pre|
    ensures Outcome([], AllReadBack(pre, ps, pos)) == Finished(ms) <==>
      Distinct(ms) && AllReadBack(pre, ps, pos) == Some(ms)
  {
    var back := AllReadBack(pre, ps, pos);
    AllAreRead(pre, ps, pos);
    if back.Some? {
      PutAllIsSameIff(ms, back.value);
    }
  }

  // ---------------------------------------------------------------- names in ASCII

  // Names in ASCII that leave room for the slash, and sizes of at most ten
  // digits.
  predicate AllShort(ms: seq<Member>)
  {
    forall i :: 0 <= i < |ms| ==> Ascii(ms[i].name) && |ms[i].name| <= 15 && HasRoom(|ms[i].blob|, 0)
  }

  predicate AllPlain(ms: seq<Member>) { forall i :: 0 <= i < |ms| ==> PlainName(ms[i].name) }

  lemma {:induction false} ShortNameFits(name: string)
    requires Ascii(name) && |name| <= 15
    ensures Surplus(name) == 0 && |Encode(name)| == |name|
  {
    var k := FieldIs(name);
    EncodeAscii(name);
    EncodeAscii(Padded(name + "/", 16));
  }

  lemma {:induction false} FitCons(ms: seq<Member>, ps: seq<Piece>)
    requires ms != [] && ps == Pieces(Utf8Decoder(), ms) && Surplus(ms[0].name) == 0 && HasRoom(|ms[0].blob|, 0)
    ensures AllFit(ps, 0) <==> AllFit(Pieces(Utf8Decoder(), ms[1..]), 0)
  {
    PiecesCons(Utf8Decoder(), ms);
  }

  lemma {:induction false} PlainCons(ms: seq<Member>)
    requires ms != []
    ensures AllPlain(ms) <==> PlainName(ms[0].name) && AllPlain(ms[1..])
  {
    assert forall i :: 1 <= i < |ms| ==> ms[i] == ms[1..][i - 1];
    assert forall i :: 0 <= i < |ms[1..]| ==> ms[1..][i] == ms[i + 1];
  }

  lemma {:induction false} ShortFits(ms: seq<Member>)
    requires AllShort(ms)
    ensures AllFit(Pieces(Utf8Decoder(), ms), 0) && (Kept(ms, 0) <==> AllPlain(ms))
    decreases |ms|
  {
    if ms != [] {
      ShortNameFits(ms[0].name);
      ShortFits(ms[1..]);
      FitCons(ms, Pieces(Utf8Decoder(), ms));
      KeptCons(ms, 0, 0);
      PlainCons(ms);
    }
  }

  // For these, exactly on distinct names that start with no space and end with
  // no slash.
  lemma {:induction false} ShortNamesIff(ms: seq<Member>)
    requires AllShort(ms)
    ensures ReadArchive(Archive(ms)) == Finished(ms) <==> Distinct(ms) && AllPlain(ms)
  {
    ShortFits(ms);
    RoundTripIff(ms);
  }

  // A name with a slash at its end does not come back.
  lemma {:induction false} SlashIsLost()
    ensures ReadArchive(Archive([Member("a/", "")])) != Finished([Member("a/", "")])
  {
    var ms := [Member("a/", "")];
    assert !PlainName(ms[0].name);
    ShortNamesIff(ms);
  }

  // Neither does a blob after a name of one character in two bytes.
  lemma {:induction false} AccentIsLost(m: Member)
    requires m == Member("\U{00e9}", "x")
    ensures ReadArchive(Archive([m])) != Finished([m])
  {
    var dec := Utf8Decoder();
    AccentField(m.name);
    PiecesCons(dec, [m]);
    assert AllFit(Pieces(dec, [m]), 0);
    KeptCons([m], 0, 1);
    assert m.blob[0] == 'x' && !AllFeeds(m.blob);
    RoundTripIff([m]);
  }

  lemma {:induction false} AccentField(name: string)
    requires name == "\U{00e9}"
    ensures Surplus(name) == 1
  {
    var k := FieldIs(name);
    assert |Encode(name)| == 2;
    assert Padded(name + "/", 16) == name + ("/" + Spaces(14));
    SpacesAreBlank(14);
    EncodeConcat(name, "/" + Spaces(14));
    EncodeAscii("/" + Spaces(14));
  }

  // ---------------------------------------------------------------- every archive

  predicate WfMembers(ms: seq<Member>)
  {
    Distinct(ms) && NamesHeld(ms) && AllPlain(ms)
  }

  // Replacing or adding a member keeps names distinct.
  lemma {:induction false} PutKeepsNames(out: seq<Member>, m: Member)
    requires Distinct(out)
    ensures Distinct(Put(out, m))
    ensures forall i :: 0 <= i < |Put(out, m)| ==> Put(out, m)[i] == m || Put(out, m)[i] in out
  {
    if out != [] && out[0].name != m.name {
      PutKeepsNames(out[1..], m);
      var r := Put(out[1..], m);
      forall i | 0 <= i < |r| ensures r[i].name != out[0].name {
        assert r[i] == m || r[i] in out[1..];
      }
    }
  }

  // Turns that give names a header can hold.
  ghost predicate GivesHeldNames(tr: int -> Turn)
  {
    forall p: int :: tr(p).Go? ==> |Encode(tr(p).member.name)| <= 16 && PlainName(tr(p).member.name)
  }

  lemma {:induction false} ReadsHeldNames(tr: int -> Turn, near: set<int>, pos: int, out: seq<Member>, seen: set<int>)
    requires Within(tr, near) && GivesHeldNames(tr) && WfMembers(out)
    ensures var r := ReadFrom(tr, near, pos, out, seen); r.Finished? ==> WfMembers(r.members)
    decreases near - seen
  {
    if pos !in seen && tr(pos).Go? {
      PutKeepsNames(out, tr(pos).member);
      ReadsHeldNames(tr, near, tr(pos).next, Put(out, tr(pos).member), seen + {pos});
    }
  }

  lemma {:induction false} TurnName(data: string, pos: int)
    requires TurnAt(Utf8Decoder(), data, pos).Go?
    ensures var name := TurnAt(Utf8Decoder(), data, pos).member.name; |Encode(name)| <= 16 && PlainName(name)
  {
    var field := Upto(Slice(data, pos, pos + 60), 16);
    NameIsPlain(Decode(field).value);
    NameIsShorter(Decode(field).value);
    DecodedIs(field);
  }

  // Whatever bytes are read, wherever the cursor went, the names that come out
  // are distinct, fit a header and are plain.
  lemma {:induction false} EveryArchiveIsPlain(data: string)
    ensures var r := ReadArchive(data); r.Finished? ==> WfMembers(r.members)
  {
    var tr := Turns(Utf8Decoder(), data);
    if MAGIC <= data {
      TurnsAreNear(Utf8Decoder(), data);
      forall p: int | tr(p).Go? ensures |Encode(tr(p).member.name)| <= 16 && PlainName(tr(p).member.name) {
        TurnName(data, p);
      }
      ReadsHeldNames(tr, Positions(data), 8, [], {});
    }
  }
}
