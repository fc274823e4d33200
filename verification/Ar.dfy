// The ar(1) reader and writer of the release contract: `read_ar` and
// `build_ar` of scripts/rust-port/release_contract.py.
module Ar {
  import opened Wrappers
  import opened Text
  import opened Utf8
  import N = Numerals

  // A name in text, a blob in bytes.
  datatype Member = Member(name: string, blob: string)

  const MAGIC: string := "!<arch>\n"

  // ---------------------------------------------------------------- writing

  function Spaces(n: nat): (r: string)
    ensures |r| == n && forall k :: 0 <= k < n ==> r[k] == ' '
  {
    seq(n, _ => ' ')
  }

  // f"{s:<width}"
  function Padded(s: string, width: nat): (r: string)
    ensures |s| <= width ==> |r| == width
    ensures |s| <= |r| && r[..|s|] == s
  {
    if |s| < width then s + Spaces(width - |s|) else s
  }

  // Date, owner, group and mode of a member, 32 columns.
  const STAMP: string := "0           0     0     100644  "

  // The name field: padded to 16 characters and then encoded.
  function Field(name: string): string { Encode(Padded(name + "/", 16)) }

  function Header(m: Member): string
  {
    Field(m.name) + STAMP + Padded(N.Digits(|m.blob|, 10), 10) + "`\n"
  }

  function Filler(size: nat): string { if size % 2 == 1 then "\n" else "" }

  function Entry(m: Member): string { Header(m) + m.blob + Filler(|m.blob|) }

  function Entries(ms: seq<Member>): string
  {
    if ms == [] then "" else Entry(ms[0]) + Entries(ms[1..])
  }

  function Archive(ms: seq<Member>): string { MAGIC + Entries(ms) }

  // The writer as it runs.
  method BuildAr(members: seq<Member>) returns (out: string)
    ensures out == Archive(members)
  {
    out := MAGIC;
    var i := 0;
    assert members[0..] == members;
    while i < |members|
      invariant 0 <= i <= |members|
      invariant out + Entries(members[i..]) == Archive(members)
    {
      var m := members[i];
      EntriesStep(out, members, i);
      out := out + Header(m);
      out := out + (m.blob + Filler(|m.blob|));
      i := i + 1;
    }
    assert members[|members|..] == [];
    assert out + "" == out;
  }

  lemma {:induction false} EntriesStep(out: string, ms: seq<Member>, i: nat)
    requires i < |ms|
    ensures out + Entries(ms[i..]) == out + Header(ms[i]) + (ms[i].blob + Filler(|ms[i].blob|)) + Entries(ms[i + 1..])
  {
    assert ms[i..][0] == ms[i] && ms[i..][1..] == ms[i + 1..];
    Regrouped(out, Header(ms[i]), ms[i].blob, Filler(|ms[i].blob|), Entries(ms[i + 1..]));
  }

  lemma {:induction false} Regrouped(out: string, header: string, blob: string, filler: string, more: string)
    ensures out + (header + blob + filler + more) == out + header + (blob + filler) + more
  {
  }

  // ---------------------------------------------------------------- reading

  // What decodes the fields of a header. The loop is independent of how.
  type Decoder = string -> Option<string>

  function Utf8Decoder(): Decoder { b => Decode(b) }

  // The name in a header: the first field without space and trailing slashes.
  function NameOf(field: string): string { StripSlashes(Strip(field)) }

  // int(field.decode().strip())
  function SizeOf(dec: Decoder, field: string): Option<int>
  {
    match dec(field) case None => None case Some(text) => N.ReadInt(Strip(text), 10, N.TextSpace())
  }

  // out[name] = blob: a new name goes last, a known one keeps its place.
  function Put(out: seq<Member>, m: Member): (r: seq<Member>)
    ensures |out| <= |r| <= |out| + 1
  {
    if out == [] then [m]
    else if out[0].name == m.name then [m] + out[1..]
    else [out[0]] + Put(out[1..], m)
  }

  // A turn of the reading loop at a cursor position: no header is left, the
  // header raises, or a member is read and the cursor moves on.
  datatype Turn = Stop | Bad(error: Error) | Go(member: Member, next: int)

  // A size field may hold a negative number, so positions may be negative too;
  // the slices are Python's. size & 1 is the parity of a negative size as well.
  function TurnAt(dec: Decoder, data: string, pos: int): Turn
  {
    if pos + 60 > |data| then Stop
    else
      match HeaderOf(dec, Slice(data, pos, pos + 60))
      case None => Bad(ValueError)
      case Some((name, size)) => Go(Member(name, Slice(data, pos + 60, pos + 60 + size)), After(pos, size))
  }

  // The name and the size in a header; None where either raises.
  function HeaderOf(dec: Decoder, hdr: string): Option<(string, int)>
  {
    match (dec(Upto(hdr, 16)), SizeOf(dec, Slice(hdr, 48, 58)))
    case (Some(text), Some(size)) => Some((NameOf(text), size))
    case _ => None
  }

  // The position after a member and its padding.
  function After(pos: int, size: int): int { pos + 60 + size + size % 2 }

  // ---------------------------------------------------------------- the loop

  // How the loop ends, if it does.
  datatype Reading = Finished(members: seq<Member>) | Raised(error: Error) | Endless

  // The positions where a turn can read a member.
  ghost function Positions(data: string): set<int> { Interval(-|data| - 60, |data|) }

  ghost function Interval(lo: int, hi: int): (r: set<int>)
    ensures forall p: int :: p in r <==> lo <= p < hi
    decreases hi - lo
  {
    if lo >= hi then {} else Interval(lo, hi - 1) + {hi - 1}
  }

  // Turns that read members at these positions only.
  ghost predicate Within(tr: int -> Turn, near: set<int>)
  {
    forall p: int :: tr(p).Go? ==> p in near
  }

  function Turns(dec: Decoder, data: string): int -> Turn { pos => TurnAt(dec, data, pos) }

  lemma {:induction false} TurnsAreNear(dec: Decoder, data: string)
    requires dec("") == Some("")
    ensures Within(Turns(dec, data), Positions(data))
  {
    forall p: int | TurnAt(dec, data, p).Go? ensures p in Positions(data) {
      NothingFarBack(dec, data, p);
    }
  }

  lemma {:induction false} NothingFarBack(dec: Decoder, data: string, pos: int)
    requires dec("") == Some("")
    ensures TurnAt(dec, data, pos).Go? ==> pos in Positions(data)
  {
    if pos < -|data| - 60 {
      assert Slice(data, pos, pos + 60) == "";
      assert Slice("", 48, 58) == "" && Strip("") == "";
      assert N.Trim("", N.TextSpace()) == "" && N.Unprefixed("", 10) == "";
    }
  }

  // A cursor that comes back to a position goes round for ever, because a turn
  // depends on the position alone.
  function ReadFrom(tr: int -> Turn, ghost near: set<int>, pos: int, out: seq<Member>, seen: set<int>): Reading
    requires Within(tr, near)
    decreases near - seen
  {
    if pos in seen then Endless
    else
      match tr(pos)
      case Stop => Finished(out)
      case Bad(e) => Raised(e)
      case Go(m, next) => ReadFrom(tr, near, next, Put(out, m), seen + {pos})
  }

  function ReadArchive(data: string): Reading
  {
    var dec := Utf8Decoder();
    TurnsAreNear(dec, data);
    if MAGIC <= data then ReadFrom(Turns(dec, data), Positions(data), 8, [], {}) else Raised(AssertionError)
  }

  // One turn as it runs.
  method ReadMember(dec: Decoder, data: string, pos: int) returns (turn: Turn)
    requires pos + 60 <= |data|
    ensures turn == TurnAt(dec, data, pos) && !turn.Stop?
  {
    var header := ReadHeader(dec, Slice(data, pos, pos + 60));
    if header.None? {
      return Bad(ValueError);
    }
    var (name, size) := header.value;
    var blob, next := Slice(data, pos + 60, pos + 60 + size), pos + (60 + size + size % 2);
    assert next == After(pos, size);
    return Go(Member(name, blob), next);
  }

  method ReadHeader(dec: Decoder, hdr: string) returns (r: Option<(string, int)>)
    ensures r == HeaderOf(dec, hdr)
  {
    var text := dec(Upto(hdr, 16));
    if text.None? {
      return None;
    }
    var name := NameOf(text.value);
    var size := SizeOf(dec, Slice(hdr, 48, 58));
    if size.None? {
      return None;
    }
    return Some((name, size.value));
  }

  // The reader as it runs: a cursor over the data.
  method ReadAr(data: string) returns (r: Reading)
    ensures r == ReadArchive(data)
  {
    if !(MAGIC <= data) {
      return Raised(AssertionError);
    }
    var dec := Utf8Decoder();
    TurnsAreNear(dec, data);
    r := ReadLoop(dec, data, Turns(dec, data), Positions(data));
  }

  // Where the script would go round for ever the positions seen so far stop
  // the method.
  method ReadLoop(dec: Decoder, data: string, ghost tr: int -> Turn, ghost near: set<int>) returns (r: Reading)
    requires (forall p: int :: tr(p) == TurnAt(dec, data, p)) && Within(tr, near)
    ensures r == ReadFrom(tr, near, 8, [], {})
  {
    var pos, out, seen: set<int> := 8, [], {};
    while pos + 60 <= |data|
      invariant ReadFrom(tr, near, pos, out, seen) == ReadFrom(tr, near, 8, [], {})
      invariant forall p :: p in seen ==> p + 60 <= |data|
      decreases near - seen
    {
      if pos in seen {
        return Endless;
      }
      var turn := ReadMember(dec, data, pos);
      assert turn == tr(pos);
      ReadOn(tr, near, pos, out, seen);
      if turn.Bad? {
        return Raised(turn.error);
      }
      OneFewer(near, seen, pos);
      out, pos, seen := Put(out, turn.member), turn.next, seen + {pos};
    }
    ReadOn(tr, near, pos, out, seen);
    return Finished(out);
  }

  lemma {:induction false} OneFewer(near: set<int>, seen: set<int>, pos: int)
    requires pos in near && pos !in seen
    ensures near - (seen + {pos}) < near - seen
  {
    assert pos in near - seen && pos !in near - (seen + {pos});
  }

  lemma {:induction false} ReadOn(tr: int -> Turn, near: set<int>, pos: int, out: seq<Member>, seen: set<int>)
    requires Within(tr, near) && pos !in seen
    ensures tr(pos).Stop? ==> ReadFrom(tr, near, pos, out, seen) == Finished(out)
    ensures tr(pos).Bad? ==> ReadFrom(tr, near, pos, out, seen) == Raised(tr(pos).error)
    ensures tr(pos).Go? ==>
      ReadFrom(tr, near, pos, out, seen) == ReadFrom(tr, near, tr(pos).next, Put(out, tr(pos).member), seen + {pos})
  {
  }
}
