// Header blocks: what `parse_stream` and `parse_response` read of them, and
// that a printed block is read as what was printed.
// scripts/rust-port/http_replay_contract.py, http_process_contract.py
module HttpHeads {
  import opened Wrappers
  import opened Text
  import opened HttpChunks
  import opened HttpChunkWire
  import opened HttpStream
  import N = Numerals

  const BLANK: string := "\r\n\r\n"

  // ---------------------------------------------------------------- reading

  // str.split('\r\n')
  function SplitLines(s: string): (r: seq<string>)
    ensures r != []
    decreases |s|
  {
    match Find(s, CRLF, 0)
    case None => [s]
    case Some(i) => [s[..i]] + SplitLines(s[i + 2..])
  }

  // The end of the run of non-space characters that starts at `from`.
  function WordEnd(s: string, from: nat): (end: nat)
    requires from <= |s|
    ensures from <= end <= |s|
    ensures from < |s| && !IsSpace(s[from]) ==> from < end
    decreases |s| - from
  {
    if from < |s| && !IsSpace(s[from]) then WordEnd(s, from + 1) else from
  }

  // str.split()
  function Words(s: string): seq<string>
    decreases |s|
  {
    var t := LStrip(s);
    if t == "" then []
    else var end := WordEnd(t, 0); [t[..end]] + Words(t[end..])
  }

  function LowerChar(c: char): char
  {
    if 'A' <= c <= 'Z' || (0xC0 <= c as int <= 0xDE && c as int != 0xD7) then (c as int + 32) as char else c
  }

  function Lower(s: string): (r: string)
    ensures |r| == |s|
  {
    seq(|s|, i requires 0 <= i < |s| => LowerChar(s[i]))
  }

  // The name in lower case and the value without surrounding space.
  function FieldOf(line: string): (string, string)
  {
    match Find(line, ":", 0)
    case None => (Lower(line), "")
    case Some(i) => (Lower(line[..i]), Strip(line[i + 1..]))
  }

  function FieldsOf(lines: seq<string>): (r: seq<(string, string)>)
    ensures |r| == |lines|
  {
    seq(|lines|, i requires 0 <= i < |lines| => FieldOf(lines[i]))
  }

  function DecimalReader(): string -> Option<int>
  {
    s => N.ReadInt(s, 10, N.TextSpace())
  }

  // The status code is the second word of the status line.
  function HeadOf(lines: seq<string>): Result<Head>
    requires lines != []
  {
    var words := Words(lines[0]);
    if |words| < 2 then Err(IndexError)
    else
      match DecimalReader()(words[1])
      case None => Err(ValueError)
      case Some(code) => Ok(Head(lines[0], code, FieldsOf(lines[1..])))
  }

  function ReadFront(s: string): (r: Front)
    ensures r.HeadThen? ==> |r.body| < |s|
  {
    match Find(s, BLANK, 0)
    case None => NoHead
    case Some(end) =>
      match HeadOf(SplitLines(s[..end]))
      case Err(e) => BadHead(e)
      case Ok(h) => HeadThen(h, s[end + 4..])
  }

  function Fronts(): FrontReader { s => ReadFront(s) }

  // The readers `parse_stream` uses.
  function Wires(): Readers { Readers(Fronts(), HexLines(), DecimalReader()) }

  // The framing of one response as it runs.
  method FrameBody(h: Head, headRequest: bool, body: string) returns (r: Result<Framed>)
    ensures r == Frame(Wires(), h, headRequest, body)
  {
    if Bodiless(h, headRequest) {
      return Ok(Framed("", body, false));
    }
    if Transfers(h) != [] {
      if Transfers(h) != ["chunked"] || Lengths(h) != [] {
        return Err(AssertionError);
      }
      var decoded := DecodeLenient(HexReader(), body);
      match decoded {
        case Err(e) => return Err(e);
        case Ok(Cut(entity)) => return Ok(Framed(entity, "", true));
        case Ok(Complete(entity, rest)) => return Ok(Framed(entity, rest, false));
      }
    }
    if Lengths(h) != [] {
      if |Lengths(h)| != 1 {
        return Err(AssertionError);
      }
      var size := DecimalReader()(Lengths(h)[0]);
      if size.None? {
        return Err(ValueError);
      }
      var entity := Upto(body, size.value);
      return Ok(Framed(entity, From(body, size.value), |entity| < size.value));
    }
    return Ok(Framed(body, "", false));
  }

  // The splitter as it runs.
  method SplitStream(raw: string, headRequest: bool) returns (r: Result<seq<Row>>)
    ensures r == ParseStream(Wires(), raw, headRequest)
  {
    var rows: seq<Row>, rest := [], raw;
    AfterNothing(ParseStream(Wires(), raw, headRequest));
    while rest != ""
      invariant After(rows, ParseStream(Wires(), rest, headRequest)) == ParseStream(Wires(), raw, headRequest)
      decreases |rest|
    {
      match ReadFront(rest) {
        case NoHead => return Ok(rows + [Partial(rest)]);
        case BadHead(e) => return Err(e);
        case HeadThen(h, body) =>
          var framed := FrameBody(h, headRequest, body);
          if framed.Err? {
            return Err(framed.error);
          }
          var row := RowOf(h, framed.value);
          if framed.value.truncated {
            return Ok(rows + [row]);
          }
          AfterOne(rows, row, ParseStream(Wires(), framed.value.rest, headRequest));
          rows, rest := rows + [row], framed.value.rest;
      }
    }
    AfterNothing(Ok(rows));
    assert rows + [] == rows;
    return Ok(rows);
  }

  // ---------------------------------------------------------------- printing

  // Lines that do not end a header block early: no line feeds, none empty
  // after the first.
  predicate WfLines(lines: seq<string>)
  {
    && lines != []
    && (forall i :: 0 <= i < |lines| ==> '\n' !in lines[i])
    && (forall i :: 0 < i < |lines| ==> lines[i] != "")
  }

  // The lines with CRLF between them, and the block with the blank line.
  function Joined(lines: seq<string>): string
    requires lines != []
  {
    if |lines| == 1 then lines[0] else lines[0] + CRLF + Joined(lines[1..])
  }

  function Block(lines: seq<string>): string
    requires lines != []
  {
    Joined(lines) + BLANK
  }

  lemma {:induction false} BlockCons(lines: seq<string>, body: string)
    requires |lines| > 1
    ensures Block(lines) + body == lines[0] + CRLF + (Block(lines[1..]) + body)
    ensures |Block(lines)| == |lines[0]| + 2 + |Block(lines[1..])|
  {
  }

  // The first two characters of what follows a line are not CRLF.
  lemma {:induction false} NotBlankNext(lines: seq<string>, body: string)
    requires WfLines(lines) && lines[0] != ""
    ensures var s := Block(lines) + body; |s| >= 2 && s[1] != '\n'
  {
    var s := Block(lines) + body;
    if |lines| == 1 {
      assert s == lines[0] + (BLANK + body);
    } else {
      BlockCons(lines, body);
    }
    assert |lines[0]| >= 2 ==> s[1] == lines[0][1];
  }

  // No blank line can start inside or right after a line that is followed by
  // something else than CRLF.
  lemma {:induction false} NoBlankInLine(line: string, more: string, i: nat)
    requires '\n' !in line && |more| >= 2 && more[1] != '\n' && i < |line| + 2
    ensures !At(line + CRLF + more, BLANK, i)
  {
    var s := line + CRLF + more;
    AtChar(s, BLANK, i, 0);
    AtChar(s, BLANK, i, 1);
    AtChar(s, BLANK, i, 3);
    if i + 1 < |line| {
      assert s[i + 1] == line[i + 1];
    } else if i == |line| {
      assert s[i + 3] == more[1];
    }
  }

  lemma {:induction false} AtShift(front: string, s: string, sub: string, i: nat)
    ensures At(front + s, sub, |front| + i) <==> At(s, sub, i)
  {
    if i + |sub| <= |s| {
      assert (front + s)[|front| + i..|front| + i + |sub|] == s[i..i + |sub|];
    }
  }

  lemma {:induction false} NoBlankInLast(line: string, body: string, i: nat)
    requires '\n' !in line && i < |line|
    ensures !At(line + BLANK + body, BLANK, i)
  {
    var s := line + BLANK + body;
    AtChar(s, BLANK, i, 1);
    if i + 1 < |line| {
      assert s[i + 1] == line[i + 1];
    }
  }

  lemma {:induction false} NoEarlyBlank(lines: seq<string>, body: string, i: nat)
    requires WfLines(lines) && i < |Joined(lines)|
    ensures !At(Block(lines) + body, BLANK, i)
    decreases |lines|
  {
    if |lines| == 1 {
      NoBlankInLast(lines[0], body, i);
    } else {
      var more := Block(lines[1..]) + body;
      BlockCons(lines, body);
      if i < |lines[0]| + 2 {
        NotBlankNext(lines[1..], body);
        NoBlankInLine(lines[0], more, i);
      } else {
        NoEarlyBlank(lines[1..], body, i - |lines[0]| - 2);
        AtShift(lines[0] + CRLF, more, BLANK, i - |lines[0]| - 2);
      }
    }
  }

  // A header block ends at its blank line.
  lemma {:induction false} BlockEnds(lines: seq<string>, body: string)
    requires WfLines(lines)
    ensures var s := Block(lines) + body; var n := |Joined(lines)|;
            Find(s, BLANK, 0) == Some(n) && s[..n] == Joined(lines) && s[n + 4..] == body
  {
    var s, n := Block(lines) + body, |Joined(lines)|;
    forall i | 0 <= i < n ensures !At(s, BLANK, i) {
      NoEarlyBlank(lines, body, i);
    }
    assert s[n..n + 4] == BLANK;
    FindIs(s, BLANK, 0, n);
  }

  // Until then there is none.
  lemma {:induction false} BlockCut(lines: seq<string>, k: nat)
    requires WfLines(lines) && k < |Block(lines)|
    ensures Find(Block(lines)[..k], BLANK, 0) == None
  {
    var s := Block(lines);
    assert s[..k] + s[k..] == s;
    assert s + "" == s;
    var r := Find(s[..k], BLANK, 0);
    if r.Some? {
      AtStable(s[..k], s[k..], BLANK, r.value);
      NoEarlyBlank(lines, "", r.value);
    }
  }

  lemma {:induction false} SplitsJoined(lines: seq<string>)
    requires lines != [] && forall i :: 0 <= i < |lines| ==> '\n' !in lines[i]
    ensures SplitLines(Joined(lines)) == lines
    decreases |lines|
  {
    if |lines| == 1 {
      NoCrlf(lines[0]);
    } else {
      SplitsFirst(lines[0], Joined(lines[1..]));
      SplitsJoined(lines[1..]);
    }
  }

  lemma {:induction false} SplitsFirst(line: string, more: string)
    requires '\n' !in line
    ensures SplitLines(line + CRLF + more) == [line] + SplitLines(more)
  {
    LineEnds(line, more);
  }

  lemma {:induction false} NoCrlf(s: string)
    requires '\n' !in s
    ensures Find(s, CRLF, 0) == None
  {
    if Find(s, CRLF, 0).Some? {
      AtChar(s, CRLF, Find(s, CRLF, 0).value, 1);
    }
  }

  lemma {:induction false} FrontOfBlock(lines: seq<string>, body: string)
    requires WfLines(lines) && HeadOf(lines).Ok?
    ensures ReadFront(Block(lines) + body) == HeadThen(HeadOf(lines).value, body)
  {
    BlockEnds(lines, body);
    SplitsJoined(lines);
  }

  lemma {:induction false} FrontOfCut(lines: seq<string>, k: nat)
    requires WfLines(lines) && k < |Block(lines)|
    ensures ReadFront(Block(lines)[..k]) == NoHead
  {
    BlockCut(lines, k);
  }

  // A printed header block is read as its lines, once all of it is there.
  lemma {:induction false} BlockIsHeadText(lines: seq<string>)
    requires WfLines(lines) && HeadOf(lines).Ok?
    ensures IsHeadText(Wires(), Block(lines), HeadOf(lines).value)
  {
    var text, h := Block(lines), HeadOf(lines).value;
    forall body ensures Fronts()(text + body) == HeadThen(h, body) {
      FrontOfBlock(lines, body);
    }
    forall k | 0 <= k < |text| ensures Fronts()(text[..k]) == NoHead {
      FrontOfCut(lines, k);
    }
  }

  lemma {:induction false} WiresNeedLineFeed()
    ensures NeedsLineFeed(Wires().line)
  {
    LinesNeedLineFeed(HexReader());
  }

  // A response printed from these header lines.
  ghost predicate HasLines(m: Message, lines: seq<string>)
  {
    WfLines(lines) && HeadOf(lines) == Ok(m.head) && m.text == Block(lines)
  }

  // A printed response whose payload is framed as its header lines announce.
  ghost predicate IsPrinted(m: Message, headRequest: bool)
  {
    (exists lines :: HasLines(m, lines)) && Fits(Wires(), m.head, headRequest, m.payload)
  }

  // It is a complete response for the splitter.
  lemma {:induction false} PrintedIsWf(m: Message, headRequest: bool)
    requires IsPrinted(m, headRequest)
    ensures WfMessage(Wires(), m, headRequest)
  {
    var lines :| HasLines(m, lines);
    BlockIsHeadText(lines);
  }

  lemma {:induction false} AllWf(ms: seq<Message>, headRequest: bool)
    requires forall i :: 0 <= i < |ms| ==> IsPrinted(ms[i], headRequest)
    ensures forall i :: 0 <= i < |ms| ==> WfMessage(Wires(), ms[i], headRequest)
  {
    forall i | 0 <= i < |ms| ensures WfMessage(Wires(), ms[i], headRequest) {
      PrintedIsWf(ms[i], headRequest);
    }
  }

  // Printed responses are split into exactly those responses.
  lemma {:induction false} PrintedSplits(ms: seq<Message>, headRequest: bool)
    requires forall i :: 0 <= i < |ms| ==> IsPrinted(ms[i], headRequest)
    ensures ParseStream(Wires(), Stream(ms), headRequest) == Ok(Rows(ms))
  {
    AllWf(ms, headRequest);
    SplitsExactly(Wires(), ms, headRequest);
  }

  // Cut strictly inside the last of them, the others stay as they are and the
  // last is never reported as complete.
  lemma {:induction false} PrintedCut(ms: seq<Message>, last: Message, headRequest: bool, k: nat)
    requires (forall i :: 0 <= i < |ms| ==> IsPrinted(ms[i], headRequest)) && IsPrinted(last, headRequest)
    requires 0 < k < |MessageWire(last)|
    ensures var end := ParseStream(Wires(), MessageWire(last)[..k], headRequest);
            && CutRow(last, k, end)
            && ParseStream(Wires(), Stream(ms) + MessageWire(last)[..k], headRequest) == After(Rows(ms), end)
  {
    AllWf(ms, headRequest);
    PrintedIsWf(last, headRequest);
    WiresNeedLineFeed();
    CutStream(Wires(), ms, last, headRequest, k);
  }
}
