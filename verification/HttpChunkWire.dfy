// Printed chunked bodies: they decode to what was printed, and a body that is
// cut short is never taken for a complete one.
// scripts/rust-port/http_framing_contract.py, http_replay_contract.py
module HttpChunkWire {
  import opened Wrappers
  import opened Text
  import opened HttpChunks
  import N = Numerals

  // A chunk with the text of its size line.
  datatype Chunk = Chunk(size: string, data: string)

  // A line that gives the size n, whatever follows it.
  ghost predicate IsSizeLine(lr: LineReader, line: string, n: int)
  {
    '\n' !in line && forall after :: lr(line + CRLF + after) == Line(n, after)
  }

  // Without a line feed there is no line yet.
  ghost predicate NeedsLineFeed(lr: LineReader)
  {
    forall s :: '\n' !in s ==> lr(s) == NoLine
  }

  ghost predicate WfChunk(lr: LineReader, c: Chunk)
  {
    c.data != "" && IsSizeLine(lr, c.size, |c.data|)
  }

  ghost predicate WfChunks(lr: LineReader, cs: seq<Chunk>)
  {
    forall i :: 0 <= i < |cs| ==> WfChunk(lr, cs[i])
  }

  function Data(cs: seq<Chunk>): string
  {
    if cs == [] then "" else cs[0].data + Data(cs[1..])
  }

  // The wire form: the chunks, the last-chunk line `zero`, an empty trailer.
  function Wire(cs: seq<Chunk>, zero: string): string
  {
    if cs == [] then zero + CRLF + CRLF
    else cs[0].size + CRLF + (cs[0].data + CRLF + Wire(cs[1..], zero))
  }

  // ---------------------------------------------------------------- one chunk

  lemma {:induction false} SplitAfter(data: string, more: string)
    ensures var s := data + CRLF + more;
            Upto(s, |data|) == data && From(s, |data| + 2) == more && Followed(s, |data|)
  {
  }

  lemma {:induction false} LenientChunk(lr: LineReader, c: Chunk, more: string, done: string)
    requires WfChunk(lr, c)
    ensures Lenient(lr, c.size + CRLF + (c.data + CRLF + more), done) == Lenient(lr, more, done + c.data)
  {
    SplitAfter(c.data, more);
  }

  lemma {:induction false} StrictChunk(lr: LineReader, c: Chunk, more: string, done: string)
    requires WfChunk(lr, c)
    ensures Strict(lr, c.size + CRLF + (c.data + CRLF + more), done) == Strict(lr, more, done + c.data)
  {
    SplitAfter(c.data, more);
  }

  lemma {:induction false} LenientLast(lr: LineReader, zero: string, more: string, done: string)
    requires IsSizeLine(lr, zero, 0)
    ensures Lenient(lr, zero + CRLF + (CRLF + more), done) == Ok(Complete(done, more))
  {
    assert Upto(CRLF + more, 2) == CRLF && From(CRLF + more, 2) == more;
  }

  // ---------------------------------------------------------------- whole bodies

  lemma {:induction false} WireSplit(cs: seq<Chunk>, zero: string, more: string)
    ensures cs == [] ==> Wire(cs, zero) + more == zero + CRLF + (CRLF + more)
    ensures cs != [] ==>
      Wire(cs, zero) + more == cs[0].size + CRLF + (cs[0].data + CRLF + (Wire(cs[1..], zero) + more))
  {
    if cs != [] {
      Associate(cs[0].size, cs[0].data, Wire(cs[1..], zero), more);
    }
  }

  lemma {:induction false} Associate(size: string, data: string, wire: string, more: string)
    ensures size + CRLF + (data + CRLF + wire) + more == size + CRLF + (data + CRLF + (wire + more))
  {
  }

  lemma {:induction false} DataSplit(done: string, cs: seq<Chunk>)
    ensures cs == [] ==> done + Data(cs) == done
    ensures cs != [] ==> done + cs[0].data + Data(cs[1..]) == done + Data(cs)
  {
  }

  lemma {:induction false} LenientStep(lr: LineReader, cs: seq<Chunk>, zero: string, more: string, done: string)
    requires cs != [] && WfChunk(lr, cs[0])
    ensures Lenient(lr, Wire(cs, zero) + more, done)
         == Lenient(lr, Wire(cs[1..], zero) + more, done + cs[0].data)
  {
    WireSplit(cs, zero, more);
    LenientChunk(lr, cs[0], Wire(cs[1..], zero) + more, done);
  }

  // However a body is divided into chunks, the splitter gives it back and
  // leaves what follows it.
  lemma {:induction false} LenientDecodes(lr: LineReader, cs: seq<Chunk>, zero: string, more: string, done: string)
    requires WfChunks(lr, cs) && IsSizeLine(lr, zero, 0)
    ensures Lenient(lr, Wire(cs, zero) + more, done) == Ok(Complete(done + Data(cs), more))
    decreases |cs|
  {
    if cs == [] {
      WireSplit(cs, zero, more);
      LenientLast(lr, zero, more, done);
      DataSplit(done, cs);
    } else {
      LenientStep(lr, cs, zero, more, done);
      LenientDecodes(lr, cs[1..], zero, more, done + cs[0].data);
      DataSplit(done, cs);
    }
  }

  // The strict reader gives it back too.
  lemma {:induction false} StrictDecodes(lr: LineReader, cs: seq<Chunk>, zero: string, done: string)
    requires WfChunks(lr, cs) && IsSizeLine(lr, zero, 0)
    ensures Strict(lr, Wire(cs, zero), done) == Ok(done + Data(cs))
    decreases |cs|
  {
    if cs == [] {
      DataSplit(done, cs);
    } else {
      StrictChunk(lr, cs[0], Wire(cs[1..], zero), done);
      StrictDecodes(lr, cs[1..], zero, done + cs[0].data);
      DataSplit(done, cs);
    }
  }

  // ---------------------------------------------------------------- bodies cut short

  lemma {:induction false} NoFeedBefore(line: string, after: string, k: nat)
    requires '\n' !in line && k <= |line| + 1
    ensures '\n' !in (line + CRLF + after)[..k]
  {
    var s := (line + CRLF + after)[..k];
    forall i | 0 <= i < k ensures s[i] != '\n' {
      assert i < |line| ==> s[i] == line[i];
      assert i == |line| ==> s[i] == CRLF[0];
    }
  }

  lemma {:induction false} CutLine(lr: LineReader, line: string, after: string, k: nat, done: string)
    requires NeedsLineFeed(lr)
    requires '\n' !in line && k <= |line| + 1
    ensures Lenient(lr, (line + CRLF + after)[..k], done) == Ok(Cut(done))
  {
    NoFeedBefore(line, after, k);
  }

  // The same line, when the cut comes after its CRLF.
  lemma {:induction false} CutAfterLine(line: string, after: string, k: nat)
    requires |line| + 2 <= k <= |line| + 2 + |after|
    ensures (line + CRLF + after)[..k] == line + CRLF + after[..k - |line| - 2]
  {
  }

  lemma {:induction false} CutData(lr: LineReader, c: Chunk, after: string, done: string)
    requires NeedsLineFeed(lr)
    requires WfChunk(lr, c) && |after| < |c.data| + 2
    ensures Lenient(lr, c.size + CRLF + after, done) == Ok(Cut(done + Upto(after, |c.data|)))
  {
    assert From(after, |c.data| + 2) == "";
  }

  // The outcome of a cut: a prefix of the data, or the failed final assertion,
  // and the latter exactly if the cut is inside the last two bytes.
  ghost predicate CutShort(r: Result<Chunked>, done: string, all: string, inTrailer: bool)
  {
    match r
    case Err(e) => e == AssertionError && inTrailer
    case Ok(Complete(_, _)) => false
    case Ok(Cut(entity)) => done <= entity <= all && !inTrailer
  }

  lemma {:induction false} UptoOfPrefix(done: string, data: string, more: string, left: nat)
    requires left <= |data + more|
    ensures done <= done + Upto((data + more)[..left], |data|) <= done + data
  {
  }

  lemma {:induction false} CutInData(lr: LineReader, c: Chunk, more: string, left: nat, done: string)
    requires NeedsLineFeed(lr)
    requires WfChunk(lr, c) && left < |c.data| + 2 && left <= |c.data + more|
    ensures var r := Lenient(lr, c.size + CRLF + (c.data + more)[..left], done);
            r.Ok? && r.value.Cut? && done <= r.value.entity <= done + c.data
  {
    CutData(lr, c, (c.data + more)[..left], done);
    UptoOfPrefix(done, c.data, more, left);
  }

  // A cut within the first chunk.
  lemma {:induction false} CutWithin(lr: LineReader, c: Chunk, rest: string, k: nat, done: string)
    requires NeedsLineFeed(lr)
    requires WfChunk(lr, c) && k < |c.size| + 2 + |c.data| + 2
    ensures var r := Lenient(lr, (c.size + CRLF + (c.data + CRLF + rest))[..k], done);
            r.Ok? && r.value.Cut? && done <= r.value.entity <= done + c.data
  {
    var after := c.data + (CRLF + rest);
    assert c.data + CRLF + rest == after;
    if k <= |c.size| + 1 {
      CutLine(lr, c.size, after, k, done);
    } else {
      CutAfterLine(c.size, after, k);
      CutInData(lr, c, CRLF + rest, k - |c.size| - 2, done);
    }
  }

  lemma {:induction false} BeyondText(size: string, data: string, rest: string, k: nat)
    requires k <= |rest|
    ensures (size + CRLF + (data + CRLF + rest))[..|size| + 2 + |data| + 2 + k] == size + CRLF + (data + CRLF + rest[..k])
  {
    CutAfterLine(size, data + CRLF + rest, |size| + 2 + |data| + 2 + k);
    CutAfterLine(data, rest, |data| + 2 + k);
  }

  // A cut beyond the first chunk is a cut of the rest.
  lemma {:induction false} CutBeyond(lr: LineReader, c: Chunk, rest: string, k: nat, done: string)
    requires WfChunk(lr, c) && k <= |rest|
    ensures Lenient(lr, (c.size + CRLF + (c.data + CRLF + rest))[..|c.size| + 2 + |c.data| + 2 + k], done)
         == Lenient(lr, rest[..k], done + c.data)
  {
    BeyondText(c.size, c.data, rest, k);
    LenientChunk(lr, c, rest[..k], done);
  }

  lemma {:induction false} CutShortWithin(entity: string, done: string, data: string, more: string)
    requires done <= entity <= done + data
    ensures CutShort(Ok(Cut(entity)), done, done + (data + more), false)
  {
    assert done + (data + more) == done + data + more;
  }

  lemma {:induction false} CutShortBeyond(r: Result<Chunked>, done: string, data: string, all: string, inTrailer: bool)
    requires CutShort(r, done + data, all, inTrailer)
    ensures CutShort(r, done, all, inTrailer)
  {
  }

  ghost predicate CutsShort(lr: LineReader, cs: seq<Chunk>, zero: string, k: nat, done: string)
    requires k < |Wire(cs, zero)|
  {
    CutShort(Lenient(lr, Wire(cs, zero)[..k], done), done, done + Data(cs), k >= |Wire(cs, zero)| - 2)
  }

  lemma {:induction false} WireCons(cs: seq<Chunk>, zero: string)
    requires cs != []
    ensures Wire(cs, zero) == cs[0].size + CRLF + (cs[0].data + CRLF + Wire(cs[1..], zero))
    ensures |Wire(cs, zero)| == |cs[0].size| + 2 + |cs[0].data| + 2 + |Wire(cs[1..], zero)|
    ensures Data(cs) == cs[0].data + Data(cs[1..])
  {
  }

  lemma {:induction false} WireCount(cs: seq<Chunk>, zero: string)
    requires cs != []
    ensures |Wire(cs, zero)| == |cs[0].size| + 2 + |cs[0].data| + 2 + |Wire(cs[1..], zero)|
  {
    WireCons(cs, zero);
  }

  lemma {:induction false} CutInFirst(lr: LineReader, cs: seq<Chunk>, zero: string, k: nat, done: string)
    requires NeedsLineFeed(lr)
    requires cs != [] && WfChunk(lr, cs[0])
    requires k < |cs[0].size| + 2 + |cs[0].data| + 2 && k < |Wire(cs, zero)|
    ensures CutsShort(lr, cs, zero, k, done)
  {
    var rest := Wire(cs[1..], zero);
    WireCons(cs, zero);
    WireLength(cs[1..], zero);
    CutWithin(lr, cs[0], rest, k, done);
    CutShortWithin(Lenient(lr, Wire(cs, zero)[..k], done).value.entity, done, cs[0].data, Data(cs[1..]));
  }

  lemma {:induction false} CutInRest(lr: LineReader, cs: seq<Chunk>, zero: string, k: nat, done: string)
    requires cs != [] && WfChunk(lr, cs[0]) && k < |Wire(cs[1..], zero)|
    requires CutsShort(lr, cs[1..], zero, k, done + cs[0].data)
    ensures |cs[0].size| + 2 + |cs[0].data| + 2 + k < |Wire(cs, zero)|
    ensures CutsShort(lr, cs, zero, |cs[0].size| + 2 + |cs[0].data| + 2 + k, done)
  {
    var n := |cs[0].size| + 2 + |cs[0].data| + 2 + k;
    WireCount(cs, zero);
    var r := Lenient(lr, Wire(cs, zero)[..n], done);
    assert r == Lenient(lr, Wire(cs[1..], zero)[..k], done + cs[0].data) by {
      WireCons(cs, zero);
      CutBeyond(lr, cs[0], Wire(cs[1..], zero), k, done);
    }
    DataSplit(done, cs);
    CutShortBeyond(r, done, cs[0].data, done + Data(cs), n >= |Wire(cs, zero)| - 2);
  }

  // A chunked body that is cut anywhere before its end is never taken for
  // complete: the splitter keeps a prefix of the data, or fails its final
  // assertion, the latter exactly if only bytes of the last CRLF are missing.
  lemma {:induction false} LenientCut(lr: LineReader, cs: seq<Chunk>, zero: string, k: nat, done: string)
    requires NeedsLineFeed(lr)
    requires WfChunks(lr, cs) && IsSizeLine(lr, zero, 0) && k < |Wire(cs, zero)|
    ensures CutsShort(lr, cs, zero, k, done)
    decreases |cs|
  {
    if cs == [] {
      LenientCutLast(lr, zero, k, done);
    } else if k < |cs[0].size| + 2 + |cs[0].data| + 2 {
      CutInFirst(lr, cs, zero, k, done);
    } else {
      WireCount(cs, zero);
      var left := k - (|cs[0].size| + 2 + |cs[0].data| + 2);
      LenientCut(lr, cs[1..], zero, left, done + cs[0].data);
      CutInRest(lr, cs, zero, left, done);
    }
  }

  lemma {:induction false} WireLength(cs: seq<Chunk>, zero: string)
    ensures |Wire(cs, zero)| >= 4
  {
    if cs != [] {
      WireLength(cs[1..], zero);
    }
  }

  lemma {:induction false} LenientCutLast(lr: LineReader, zero: string, k: nat, done: string)
    requires NeedsLineFeed(lr)
    requires IsSizeLine(lr, zero, 0) && k < |zero| + 4
    ensures CutShort(Lenient(lr, (zero + CRLF + CRLF)[..k], done), done, done + "", k >= |zero| + 2)
  {
    assert done + "" == done;
    if k <= |zero| + 1 {
      CutLine(lr, zero, CRLF, k, done);
    } else {
      CutAfterLine(zero, CRLF, k);
      assert lr(zero + CRLF + CRLF[..k - |zero| - 2]) == Line(0, CRLF[..k - |zero| - 2]);
    }
  }

  // ---------------------------------------------------------------- the printers

  function HexLines(): LineReader { Lines(HexReader()) }

  // A line without line feeds ends at the CRLF that follows it.
  lemma {:induction false} LineEnds(line: string, after: string)
    requires '\n' !in line
    ensures var s := line + CRLF + after;
            Find(s, CRLF, 0) == Some(|line|) && s[..|line|] == line && s[|line| + 2..] == after
  {
    var s := line + CRLF + after;
    assert s[|line|..|line| + 2] == CRLF;
    forall k | 0 <= k < |line|
      ensures !At(s, CRLF, k)
    {
      AtChar(s, CRLF, k, 1);
      assert k + 1 < |line| ==> s[k + 1] == line[k + 1];
    }
    FindIs(s, CRLF, 0, |line|);
  }

  // The size line of a body is what comes before its first CRLF.
  lemma {:induction false} SizeLineIs(rd: SizeReader, line: string, n: int)
    requires rd(line) == Some(n) && '\n' !in line
    ensures IsSizeLine(Lines(rd), line, n)
  {
    forall after ensures Lines(rd)(line + CRLF + after) == Line(n, after) {
      LineEnds(line, after);
    }
  }

  // Text without a line feed holds no line.
  lemma {:induction false} LinesNeedLineFeed(rd: SizeReader)
    ensures NeedsLineFeed(Lines(rd))
  {
    forall s | '\n' !in s ensures Lines(rd)(s) == NoLine {
      if Find(s, CRLF, 0).Some? {
        var k := Find(s, CRLF, 0).value;
        AtChar(s, CRLF, k, 1);
      }
    }
  }

  const LAST: string := "0\r\n\r\n"

  // A chunk with its size printed in hexadecimal.
  function Printed(data: string): Chunk
  {
    Chunk(N.Digits(|data|, 16), data)
  }

  // `chunk` of the replay contract and `encoded` of the framing contract.
  function Encoded(body: string): string
  {
    N.Digits(|body|, 16) + CRLF + body + CRLF + LAST
  }

  // The body one byte per chunk: each printed alone, without its last five bytes.
  function Bytewise(body: string): string
  {
    if body == "" then LAST
    else var one := Encoded([body[0]]); one[..|one| - 5] + Bytewise(body[1..])
  }

  function PrintedParts(parts: seq<string>): seq<Chunk>
  {
    if parts == [] then [] else [Printed(parts[0])] + PrintedParts(parts[1..])
  }

  function Concat(parts: seq<string>): string
  {
    if parts == [] then "" else parts[0] + Concat(parts[1..])
  }

  lemma {:induction false} DigitsAreALine(s: string)
    requires N.AllDigits(s, 16)
    ensures '\n' !in s
  {
    forall k | 0 <= k < |s| ensures s[k] != '\n' {
      assert N.IsDigit(s[k], 16);
    }
  }

  lemma {:induction false} ZeroLine()
    ensures IsSizeLine(HexLines(), "0", 0) && N.Digits(0, 16) == "0"
  {
    N.SpacesAreNoDigits();
    N.ReadIntDigits(0, 16, N.ByteSpace());
    SizeLineIs(HexReader(), "0", 0);
  }

  // The hexadecimal size that is printed is the size that is read.
  lemma {:induction false} PrintedIsWf(data: string)
    requires data != ""
    ensures WfChunk(HexLines(), Printed(data))
  {
    N.SpacesAreNoDigits();
    N.ReadIntDigits(|data|, 16, N.ByteSpace());
    DigitsAreALine(N.Digits(|data|, 16));
    SizeLineIs(HexReader(), N.Digits(|data|, 16), |data|);
  }

  lemma {:induction false} PartsAreWf(parts: seq<string>)
    requires forall i :: 0 <= i < |parts| ==> parts[i] != ""
    ensures WfChunks(HexLines(), PrintedParts(parts)) && Data(PrintedParts(parts)) == Concat(parts)
    decreases |parts|
  {
    if parts != [] {
      PrintedIsWf(parts[0]);
      PartsAreWf(parts[1..]);
      var cs := PrintedParts(parts);
      assert cs[1..] == PrintedParts(parts[1..]);
    }
  }

  // Any division of a body into non-empty chunks decodes to the body, with
  // either decoder.
  lemma {:induction false} AnyDivisionDecodes(parts: seq<string>)
    requires forall i :: 0 <= i < |parts| ==> parts[i] != ""
    ensures Strict(HexLines(), Wire(PrintedParts(parts), "0"), "") == Ok(Concat(parts))
    ensures Lenient(HexLines(), Wire(PrintedParts(parts), "0"), "") == Ok(Complete(Concat(parts), ""))
  {
    PartsAreWf(parts);
    ZeroLine();
    StrictDecodes(HexLines(), PrintedParts(parts), "0", "");
    assert "" + Concat(parts) == Concat(parts);
    DecodersAgree(HexLines(), Wire(PrintedParts(parts), "0"), "");
  }

  function Singletons(body: string): seq<string>
  {
    if body == "" then [] else [[body[0]]] + Singletons(body[1..])
  }

  lemma {:induction false} SingletonsConcat(body: string)
    ensures Concat(Singletons(body)) == body
    ensures forall i :: 0 <= i < |Singletons(body)| ==> Singletons(body)[i] != ""
  {
    if body != "" {
      SingletonsConcat(body[1..]);
      assert Singletons(body)[1..] == Singletons(body[1..]);
      assert [body[0]] + body[1..] == body;
    }
  }

  lemma {:induction false} EncodedIsWire(body: string)
    ensures Encoded(body) == Wire([Printed(body)], "0")
  {
    assert Wire([], "0") == LAST;
    assert [Printed(body)][1..] == [];
    assert Encoded(body) == N.Digits(|body|, 16) + CRLF + (body + CRLF + LAST);
  }

  lemma {:induction false} EncodedPrefix(body: string)
    ensures var one := Encoded(body); |one| >= 5 && one[..|one| - 5] == Printed(body).size + CRLF + body + CRLF
  {
  }

  lemma {:induction false} WireOfParts(first: string, others: seq<string>)
    ensures Wire(PrintedParts([first] + others), "0")
         == Printed(first).size + CRLF + first + CRLF + Wire(PrintedParts(others), "0")
  {
    var cs := PrintedParts([first] + others);
    assert ([first] + others)[1..] == others;
    assert cs[0] == Printed(first) && cs[1..] == PrintedParts(others);
  }

  lemma {:induction false} BytewiseIsWire(body: string)
    ensures Bytewise(body) == Wire(PrintedParts(Singletons(body)), "0")
    decreases |body|
  {
    if body == "" {
      assert Wire([], "0") == LAST;
    } else {
      EncodedPrefix([body[0]]);
      BytewiseIsWire(body[1..]);
      WireOfParts([body[0]], Singletons(body[1..]));
    }
  }

  // The one-byte-per-chunk form decodes to the body.
  lemma {:induction false} BytewiseDecodes(body: string)
    ensures Strict(HexLines(), Bytewise(body), "") == Ok(body)
    ensures Lenient(HexLines(), Bytewise(body), "") == Ok(Complete(body, ""))
  {
    BytewiseIsWire(body);
    SingletonsConcat(body);
    AnyDivisionDecodes(Singletons(body));
  }

  lemma {:induction false} EncodedEmptyFails()
    ensures Strict(HexLines(), Encoded(""), "") == Err(AssertionError)
  {
    ZeroLine();
    assert Encoded("") == "0" + CRLF + (CRLF + LAST);
    assert HexLines()("0" + CRLF + (CRLF + LAST)) == Line(0, CRLF + LAST);
    assert |CRLF + LAST| == 7;
  }

  lemma {:induction false} EncodedDecodes(body: string)
    requires body != ""
    ensures Strict(HexLines(), Encoded(body), "") == Ok(body)
  {
    EncodedIsWire(body);
    WireOfParts(body, []);
    assert [body] + [] == [body];
    assert Concat([body]) == body + Concat([body][1..]) == body;
    assert PrintedParts([body]) == [Printed(body)] + PrintedParts([body][1..]) == [Printed(body)];
    AnyDivisionDecodes([body]);
  }

  // The one-chunk form decodes to the body exactly if the body is not empty:
  // an empty chunk is the last chunk, and what follows it is in the way.
  lemma {:induction false} EncodedDecodesIff(body: string)
    ensures Strict(HexLines(), Encoded(body), "") == Ok(body) <==> body != ""
  {
    if body == "" {
      EncodedEmptyFails();
    } else {
      EncodedDecodes(body);
    }
  }
}
