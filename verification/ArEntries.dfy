// What `read_ar` makes of the entries that `build_ar` writes:
// scripts/rust-port/release_contract.py.
module ArEntries {
  import opened Wrappers
  import opened Text
  import opened Utf8
  import opened Ar
  import opened ArWalk
  import N = Numerals

  // A name of 16 characters leaves no room for its slash, and a character
  // beyond ASCII takes more than the one column it was padded for. Either moves
  // the rest of the header, and everything after it, to the right of where the
  // reader looks. This is by how many bytes.
  function Surplus(name: string): nat { if |Field(name)| > 16 then |Field(name)| - 16 else 0 }

  // ---------------------------------------------------------------- the fields

  lemma {:induction false} SpacesAreBlank(n: nat)
    ensures Blank(Spaces(n)) && Ascii(Spaces(n))
  {
  }

  lemma {:induction false} DigitsAre(n: nat)
    ensures Trimmed(N.Digits(n, 10)) && Ascii(N.Digits(n, 10))
  {
    var s := N.Digits(n, 10);
    assert forall k :: 0 <= k < |s| ==> N.IsDigit(s[k], 10);
  }

  function Power(k: nat): nat { if k == 0 then 1 else 10 * Power(k - 1) }

  lemma {:induction false} FewDigits(n: nat, k: nat)
    requires n < Power(k) && k > 0
    ensures |N.Digits(n, 10)| <= k
    decreases k
  {
    if n >= 10 {
      FewDigits(n / 10, k - 1);
    }
  }

  lemma {:induction false} RoomIsEnough(m: Member, t: nat)
    requires HasRoom(|m.blob|, t)
    ensures |N.Digits(|m.blob|, 10)| + t <= 10
  {
    assert Power(2) == 100 && Power(4) == 10_000 && Power(6) == 1_000_000 && Power(8) == 100_000_000;
    FewDigits(|m.blob|, 10 - t);
  }

  lemma {:induction false} FieldLength(m: Member)
    ensures |Field(m.name)| == 16 + Surplus(m.name) && |Padded(N.Digits(|m.blob|, 10), 10)| >= 10
  {
    EncodedLength(Padded(m.name + "/", 16));
  }

  // The end of a header that the reader has not yet passed.
  function Ends(t: nat): string { if t == 0 then "" else if t == 1 then "\n" else "`\n" }

  // The size field as the reader sees it, t bytes ahead.
  function SizeField(n: nat, t: nat): string
    requires t <= 9
  {
    STAMP[32 - t..] + Padded(N.Digits(n, 10), 10)[..10 - t]
  }

  lemma {:induction false} SizeFieldIsAscii(n: nat, t: nat)
    requires t <= 9
    ensures Ascii(SizeField(n, t)) && Utf8Decoder()(SizeField(n, t)) == Some(SizeField(n, t))
  {
    DigitsAre(n);
    assert Ascii(Padded(N.Digits(n, 10), 10));
    StampIsAscii(STAMP);
    AsciiIsItself(SizeField(n, t));
  }

  lemma {:induction false} StampIsAscii(stamp: string)
    requires stamp == STAMP
    ensures Ascii(stamp)
  {
  }

  lemma {:induction false} StampEnds(t: nat)
    requires t <= 2
    ensures STAMP[32 - t..] == Spaces(t)
  {
  }

  lemma {:induction false} StripField(digits: string, t: nat)
    requires |digits| + t <= 10 && Trimmed(digits)
    ensures Strip(Spaces(t) + Padded(digits, 10)[..10 - t]) == digits
  {
    var pad := Spaces(10 - t - |digits|);
    SpacesAreBlank(t);
    SpacesAreBlank(10 - t - |digits|);
    StripPadded(Spaces(t), digits, pad);
    assert Padded(digits, 10)[..10 - t] == digits + pad;
    assert Spaces(t) + (digits + pad) == Spaces(t) + digits + pad;
  }

  lemma {:induction false} SizeIsRead(n: nat, t: nat)
    requires t <= 2 && |N.Digits(n, 10)| + t <= 10
    ensures SizeOf(Utf8Decoder(), SizeField(n, t)) == Some(n)
  {
    SizeFieldIsAscii(n, t);
    DigitsAre(n);
    StampEnds(t);
    StripField(N.Digits(n, 10), t);
    N.SpacesAreNoDigits();
    N.ReadIntDigits(n, 10, N.TextSpace());
  }

  // ---------------------------------------------------------------- a spoilt size

  // Three to nine bytes ahead, digits of the mode stand before the size.
  lemma {:induction false} StampMode(t: nat) returns (pad: string, mode: string)
    requires 3 <= t <= 9
    ensures STAMP[32 - t..] == pad + mode + "  " && Blank(pad)
    ensures mode != "" && Trimmed(mode) && mode[0] != '-' && mode[0] != '+'
  {
    StampEnd(STAMP[23..]);
    assert STAMP[32 - t..] == STAMP[23..][9 - t..];
    pad, mode := ModeIn("100644", t);
  }

  lemma {:induction false} ModeIn(digits: string, t: nat) returns (pad: string, mode: string)
    requires 3 <= t <= 9 && |digits| == 6 && forall k :: 0 <= k < 6 ==> '0' <= digits[k] <= '9'
    ensures (" " + digits + "  ")[9 - t..] == pad + mode + "  " && Blank(pad)
    ensures mode != "" && Trimmed(mode) && mode[0] != '-' && mode[0] != '+'
  {
    pad := if t == 9 then " " else "";
    mode := if t == 9 then digits else digits[8 - t..];
  }

  lemma {:induction false} StampEnd(end: string)
    requires end == STAMP[23..]
    ensures end == " " + "100644" + "  "
  {
  }

  lemma {:induction false} SizeIsSpoilt(n: nat, t: nat)
    requires 3 <= t <= 9
    ensures SizeOf(Utf8Decoder(), SizeField(n, t)) == None
  {
    var rest := Padded(N.Digits(n, 10), 10)[..10 - t];
    var pad, mode := StampMode(t);
    SizeFieldIsAscii(n, t);
    assert rest[0] == N.Digits(n, 10)[0];
    DigitsAre(n);
    SpoiltText(pad, mode, rest);
  }

  lemma {:induction false} SpoiltText(pad: string, mode: string, rest: string)
    requires Blank(pad) && mode != "" && Trimmed(mode) && mode[0] != '-' && mode[0] != '+'
    requires rest != "" && !IsSpace(rest[0])
    ensures N.ReadInt(Strip(pad + mode + "  " + rest), 10, N.TextSpace()) == None
  {
    var front := mode + "  ";
    var s := RStrip(front + rest);
    assert pad + mode + "  " + rest == pad + (front + rest);
    LStripBlank(pad, front + rest);
    RStripKeeps(front, rest);
    assert LStrip(front + rest) == front + rest;
    assert s[0] == mode[0] && s[|mode|] == s[..|front|][|mode|] == ' ';
    assert N.Trim(s, N.TextSpace()) == s;
    NoSpacesInside(s, |mode|);
  }

  lemma {:induction false} RStripKeeps(front: string, rest: string)
    requires rest != "" && !IsSpace(rest[0])
    ensures var r := RStrip(front + rest); |r| > |front| && r[..|front|] == front && !IsSpace(r[|r| - 1])
    decreases |rest|
  {
    var s := front + rest;
    if IsSpace(s[|s| - 1]) {
      assert s[..|s| - 1] == front + rest[..|rest| - 1];
      RStripKeeps(front, rest[..|rest| - 1]);
    }
  }

  lemma {:induction false} NoSpacesInside(s: string, k: nat)
    requires k < |s| && s[k] == ' '
    ensures N.Ungrouped(s, 10) == None
    decreases |s|
  {
    if k > 0 && N.IsDigit(s[0], 10) {
      if s[1] == '_' {
        NoSpacesInside(s[2..], k - 2);
      } else {
        NoSpacesInside(s[1..], k - 1);
      }
    }
  }

  // ---------------------------------------------------------------- one entry

  // The header as a reader sees it from some bytes before it.
  lemma {:induction false} Columns(tail: string, field: string, stamp: string, size: string, end: string, rest: string)
    requires |field| >= 16 && |tail| + |field| <= 25 && |stamp| == 32 && |size| >= 10 && |end| == 2
    ensures var h := tail + (field + stamp + size + end) + rest; var t := |tail| + |field| - 16;
            |h| >= 60 && h[..60][..16] == (tail + field)[..16] && h[..60][48..58] == stamp[32 - t..] + size[..10 - t]
  {
    var h, t := tail + (field + stamp + size + end) + rest, |tail| + |field| - 16;
    forall k | 0 <= k < 10 ensures h[..60][48..58][k] == (stamp[32 - t..] + size[..10 - t])[k] {
      assert h[..60][48..58][k] == h[48 + k];
      assert k < t ==> h[48 + k] == stamp[32 - t + k];
      assert k >= t ==> h[48 + k] == size[k - t];
    }
  }

  lemma {:induction false} HeaderBack(tail: string, field: string, size: string, rest: string)
    requires |field| >= 16 && |size| == 10 && |tail| + |field| <= 18
    ensures var h := tail + (field + STAMP + size + "`\n") + rest;
            h[60..] == Ends(|tail| + |field| - 16) + rest
  {
    var body, t := tail + (field + STAMP + size), |tail| + |field| - 16;
    var h := tail + (field + STAMP + size + "`\n") + rest;
    assert h == body + "`\n" + rest && |body| == 58 + t;
  }

  // The name field as the reader sees it, given the bytes before the entry
  // that it takes for its start.
  function NameSeen(before: string, name: string): string { Upto(before + Field(name), 16) }

  // What is read where a member was written; None where the name raises.
  function ReadBack(dec: Decoder, before: string, m: Member): Option<Member>
  {
    match dec(NameSeen(before, m.name))
    case None => None
    case Some(text) => Some(Member(NameOf(text), Upto(Ends(|before| + Surplus(m.name)) + m.blob, |m.blob|)))
  }

  function PieceOf(dec: Decoder, m: Member): Piece
  {
    Piece(Entry(m), Surplus(m.name), |m.blob|, before => ReadBack(dec, before, m))
  }

  // The entry with the bytes before it.
  function Seen(tail: string, m: Member, more: string): string
  {
    tail + Header(m) + (m.blob + Filler(|m.blob|) + more)
  }

  lemma {:induction false} Regroup(front: string, tail: string, header: string, blob: string, filler: string, more: string)
    ensures front + tail + (header + blob + filler) + more == front + (tail + header + (blob + filler + more))
  {
  }

  lemma {:induction false} SlicesAt(front: string, h: string, n: nat)
    requires 60 <= |h|
    ensures Slice(front + h, |front|, |front| + 60) == h[..60]
    ensures 60 + n <= |h| ==> Slice(front + h, |front| + 60, |front| + 60 + n) == h[60..][..n]
  {
  }

  // A turn at the front of what is seen.
  lemma {:induction false} TurnOn(dec: Decoder, data: string, pos: int, front: string, h: string, n: nat)
    requires data == front + h && pos == |front| && 60 + n <= |h| && SizeOf(dec, h[..60][48..58]) == Some(n)
    ensures Turns(dec, data)(pos) ==
            if dec(h[..60][..16]).None? then Bad(ValueError)
            else Go(Member(NameOf(dec(h[..60][..16]).value), h[60..][..n]), After(pos, n))
  {
    SlicesAt(front, h, n);
    assert Slice(h[..60], 48, 58) == h[..60][48..58] && Upto(h[..60], 16) == h[..60][..16];
  }

  lemma {:induction false} TurnBad(dec: Decoder, data: string, pos: int, front: string, h: string)
    requires data == front + h && pos == |front| && 60 <= |h| && SizeOf(dec, h[..60][48..58]) == None
    ensures Turns(dec, data)(pos) == Bad(ValueError)
  {
    SlicesAt(front, h, 0);
    assert Slice(h[..60], 48, 58) == h[..60][48..58] && Upto(h[..60], 16) == h[..60][..16];
  }

  lemma {:induction false} EntryLength(m: Member)
    requires |N.Digits(|m.blob|, 10)| <= 10
    ensures |Entry(m)| == 60 + Surplus(m.name) + |m.blob| + |m.blob| % 2
  {
    FieldLength(m);
  }

  lemma {:induction false} SeenFields(tail: string, m: Member, more: string)
    requires |tail| + Surplus(m.name) <= 9
    ensures var h := Seen(tail, m, more);
            && |h| >= 60 && h[..60][..16] == NameSeen(tail, m.name)
            && h[..60][48..58] == SizeField(|m.blob|, |tail| + Surplus(m.name))
  {
    FieldLength(m);
    Columns(tail, Field(m.name), STAMP, Padded(N.Digits(|m.blob|, 10), 10), "`\n", m.blob + Filler(|m.blob|) + more);
  }

  lemma {:induction false} SeenBlob(tail: string, m: Member, more: string)
    requires |tail| + Surplus(m.name) <= 2 && |N.Digits(|m.blob|, 10)| <= 10
    ensures var h, n := Seen(tail, m, more), |m.blob|;
            60 + n <= |h| && h[60..][..n] == Upto(Ends(|tail| + Surplus(m.name)) + m.blob, n)
  {
    FieldLength(m);
    BlobBack(tail, Field(m.name), Padded(N.Digits(|m.blob|, 10), 10), m.blob, Filler(|m.blob|), more);
  }

  lemma {:induction false} BlobBack(tail: string, field: string, size: string, blob: string, filler: string, more: string)
    requires |field| >= 16 && |size| == 10 && |tail| + |field| <= 18
    ensures var h := tail + (field + STAMP + size + "`\n") + (blob + filler + more);
            60 + |blob| <= |h| && h[60..][..|blob|] == Upto(Ends(|tail| + |field| - 16) + blob, |blob|)
  {
    HeaderBack(tail, field, size, blob + filler + more);
    BlobSeen(Ends(|tail| + |field| - 16), blob, filler + more);
    assert blob + (filler + more) == blob + filler + more;
  }

  lemma {:induction false} BlobSeen(ends: string, blob: string, rest: string)
    ensures (ends + (blob + rest))[..|blob|] == Upto(ends + blob, |blob|)
  {
  }

  // A written entry is read with its size, padding and alignment undone, from
  // up to two bytes before it; from more the reader raises.
  lemma {:induction false} EntryReads(data: string, pos: int, front: string, tail: string, m: Member, more: string)
    requires data == front + tail + Entry(m) + more && pos == |front| && Fits(|m.blob|, |tail| + Surplus(m.name))
    ensures Turns(Utf8Decoder(), data)(pos) == Expected(PieceOf(Utf8Decoder(), m), tail, pos)
  {
    var dec, h := Utf8Decoder(), Seen(tail, m, more);
    Regroup(front, tail, Header(m), m.blob, Filler(|m.blob|), more);
    SeenFields(tail, m, more);
    if |tail| + Surplus(m.name) > 2 {
      SizeIsSpoilt(|m.blob|, |tail| + Surplus(m.name));
      TurnBad(dec, data, pos, front, h);
    } else {
      RoomIsEnough(m, |tail| + Surplus(m.name));
      SizeIsRead(|m.blob|, |tail| + Surplus(m.name));
      SeenBlob(tail, m, more);
      TurnOn(dec, data, pos, front, h, |m.blob|);
    }
  }

  // ---------------------------------------------------------------- whole archives

  function Pieces(dec: Decoder, ms: seq<Member>): (ps: seq<Piece>)
    ensures |ps| == |ms| && forall i :: 0 <= i < |ms| ==> ps[i] == PieceOf(dec, ms[i])
  {
    if ms == [] then [] else [PieceOf(dec, ms[0])] + Pieces(dec, ms[1..])
  }

  lemma {:induction false} PiecesCons(dec: Decoder, ms: seq<Member>)
    requires ms != []
    ensures Pieces(dec, ms)[0] == PieceOf(dec, ms[0]) && Pieces(dec, ms)[1..] == Pieces(dec, ms[1..])
  {
  }

  lemma {:induction false} TextsAreEntries(dec: Decoder, ms: seq<Member>)
    ensures Texts(Pieces(dec, ms)) == Entries(ms)
  {
    if ms != [] {
      PiecesCons(dec, ms);
      TextsAreEntries(dec, ms[1..]);
    }
  }

  lemma {:induction false} PieceIsRead(data: string, m: Member)
    ensures Reads(Turns(Utf8Decoder(), data), data, PieceOf(Utf8Decoder(), m))
  {
    var tr, p := Turns(Utf8Decoder(), data), PieceOf(Utf8Decoder(), m);
    forall pre, more, pos: int ensures TakesOff(tr, data, pre, p, more, pos) {
      if data == pre + p.text + more && 0 <= pos <= |pre| && Fits(p.size, |pre| - pos + p.surplus) {
        assert pre == pre[..pos] + pre[pos..];
        EntryReads(data, pos, pre[..pos], pre[pos..], m, more);
      }
    }
    PieceIsSized(m);
  }

  lemma {:induction false} PieceIsSized(m: Member)
    ensures Sized(PieceOf(Utf8Decoder(), m))
  {
    if HasRoom(|m.blob|, Surplus(m.name)) {
      RoomIsEnough(m, Surplus(m.name));
      EntryLength(m);
    }
  }

  // An archive is read as the dictionary of its members as the reader sees
  // them, in order of first appearance and with the last blob of each name.
  lemma {:induction false} ArchiveReads(ms: seq<Member>)
    requires AllFit(Pieces(Utf8Decoder(), ms), 0)
    ensures ReadArchive(Archive(ms)) == Outcome([], AllReadBack(MAGIC, Pieces(Utf8Decoder(), ms), 8))
  {
    var dec, data, ps := Utf8Decoder(), Archive(ms), Pieces(Utf8Decoder(), ms);
    assert data[..8] == MAGIC;
    TurnsAreNear(dec, data);
    TextsAreEntries(dec, ms);
    forall i | 0 <= i < |ps| ensures Reads(Turns(dec, data), data, ps[i]) {
      PieceIsRead(data, ms[i]);
    }
    EntriesRead(Turns(dec, data), Positions(data), data, MAGIC, ps, 8, [], {});
  }
}
