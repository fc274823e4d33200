// The single-response reader `parse_response`, and exactly when it and the
// stream splitter agree: scripts/rust-port/http_process_contract.py.
module HttpReply {
  import opened Wrappers
  import opened Text
  import opened HttpChunks
  import opened HttpChunkWire
  import opened HttpStream
  import opened HttpHeads
  import N = Numerals

  datatype Reply = Reply(statusLine: string, fields: seq<(string, string)>, body: string, wireBody: string)

  // Every header line has a colon.
  predicate AllFields(lines: seq<string>)
  {
    forall i :: 0 <= i < |lines| ==> Find(lines[i], ":", 0).Some?
  }

  // The entity of a body, by the framing its fields announce.
  function Unframe(fields: seq<(string, string)>, body: string, headRequest: bool): Result<string>
  {
    var lengths, transfers := Values(fields, "content-length"), Values(fields, "transfer-encoding");
    if headRequest then
      if body != "" || |lengths| != 1 then Err(AssertionError)
      else
        match DecimalReader()(lengths[0])
        case None => Err(ValueError)
        case Some(n) => if n >= 0 && transfers == [] then Ok("") else Err(AssertionError)
    else if transfers != [] then
      if lengths == [] && transfers == ["chunked"] then Strict(HexLines(), body, "") else Err(AssertionError)
    else if |lengths| != 1 then Err(AssertionError)
    else
      match DecimalReader()(lengths[0])
      case None => Err(ValueError)
      case Some(n) => if n == |body| then Ok(body) else Err(AssertionError)
  }

  // The reply in a header block and the body after it. `utf8` says which
  // entities decode as UTF-8.
  function ReplyOf(utf8: string -> bool, lines: seq<string>, wire: string, headRequest: bool): Result<Reply>
    requires lines != []
  {
    if !AllFields(lines[1..]) then Err(ValueError)
    else
      match Unframe(FieldsOf(lines[1..]), wire, headRequest)
      case Err(e) => Err(e)
      case Ok(body) => if utf8(body) then Ok(Reply(lines[0], FieldsOf(lines[1..]), body, wire)) else Err(ValueError)
  }

  function ParseReply(utf8: string -> bool, raw: string, headRequest: bool): Result<Reply>
  {
    match Find(raw, BLANK, 0)
    case None => Err(ValueError)
    case Some(end) => ReplyOf(utf8, SplitLines(raw[..end]), raw[end + 4..], headRequest)
  }

  // The reader as it runs.
  method ReadReply(utf8: string -> bool, raw: string, headRequest: bool) returns (r: Result<Reply>)
    ensures r == ParseReply(utf8, raw, headRequest)
  {
    var end := Find(raw, BLANK, 0);
    if end.None? {
      return Err(ValueError);
    }
    var lines, wire := SplitLines(raw[..end.value]), raw[end.value + 4..];
    if !AllFields(lines[1..]) {
      return Err(ValueError);
    }
    var fields := FieldsOf(lines[1..]);
    var entity;
    if !headRequest && Values(fields, "transfer-encoding") == ["chunked"] && Values(fields, "content-length") == [] {
      entity := DecodeStrict(HexReader(), wire);
    } else {
      entity := Unframe(fields, wire, headRequest);
    }
    if entity.Err? {
      return Err(entity.error);
    }
    if !utf8(entity.value) {
      return Err(ValueError);
    }
    return Ok(Reply(lines[0], fields, entity.value, wire));
  }

  // ---------------------------------------------------------------- agreement

  // Where the reader accepts a body, the splitter frames the same entity and
  // leaves nothing, unless the status allows no entity.
  lemma {:induction false} FramesAgree(h: Head, body: string, headRequest: bool)
    requires Unframe(h.fields, body, headRequest).Ok?
    requires headRequest || !Bodiless(h, headRequest)
    ensures Frame(Wires(), h, headRequest, body) == Ok(Framed(Unframe(h.fields, body, headRequest).value, "", false))
  {
    if !headRequest && Transfers(h) != [] {
      DecodersAgree(HexLines(), body, "");
    } else if !headRequest {
      assert Upto(body, |body|) == body && From(body, |body|) == "";
    }
  }

  lemma {:induction false} RowsOfSomething(rs: Readers, rest: string, headRequest: bool)
    requires rest != ""
    ensures ParseStream(rs, rest, headRequest) != Ok([])
  {
  }

  // The one row the splitter should give for a reply.
  function RowFor(h: Head, reply: Reply): Row
  {
    Response(h, h.code == 100, reply.body, false)
  }

  // The splitter gives that row and no other.
  ghost predicate SplitsAlike(raw: string, reply: Reply, headRequest: bool)
  {
    exists h: Head ::
      && ParseStream(Wires(), raw, headRequest) == Ok([RowFor(h, reply)])
      && h.statusLine == reply.statusLine && h.fields == reply.fields
  }

  lemma {:induction false} StreamOfReply(h: Head, body: string, headRequest: bool)
    requires Unframe(h.fields, body, headRequest).Ok?
    ensures var entity := Unframe(h.fields, body, headRequest).value;
            var f := Frame(Wires(), h, headRequest, body);
            if headRequest || !Bodiless(h, headRequest) || body == "" then f == Ok(Framed(entity, "", false))
            else f == Ok(Framed("", body, false))
  {
    if headRequest || !Bodiless(h, headRequest) {
      FramesAgree(h, body, headRequest);
    } else if body == "" {
      EmptyBody(h, headRequest);
    }
  }

  // The reader accepts an empty body only as an empty entity.
  lemma {:induction false} EmptyBody(h: Head, headRequest: bool)
    requires Unframe(h.fields, "", headRequest).Ok?
    ensures Unframe(h.fields, "", headRequest).value == ""
  {
    LinesNeedLineFeed(HexReader());
  }

  lemma {:induction false} OneRow(rs: Readers, raw: string, h: Head, reply: Reply, headRequest: bool)
    requires raw != "" && rs.front(raw) == HeadThen(h, reply.wireBody)
    requires Frame(rs, h, headRequest, reply.wireBody) == Ok(Framed(reply.body, "", false))
    ensures ParseStream(rs, raw, headRequest) == Ok([RowFor(h, reply)])
  {
    assert ParseStream(rs, "", headRequest) == Ok([]);
    assert [RowFor(h, reply)] + [] == [RowFor(h, reply)];
  }

  lemma {:induction false} MoreRows(rs: Readers, raw: string, h: Head, body: string, headRequest: bool)
    requires raw != "" && rs.front(raw) == HeadThen(h, body) && body != ""
    requires Frame(rs, h, headRequest, body) == Ok(Framed("", body, false))
    ensures var r := ParseStream(rs, raw, headRequest); r.Ok? ==> |r.value| > 1
  {
    RowsOfSomething(rs, body, headRequest);
  }

  // What the code of a readable head decides.
  predicate RoomForBody(h: Head, reply: Reply, headRequest: bool)
  {
    headRequest || !Bodiless(h, headRequest) || reply.wireBody == ""
  }

  lemma {:induction false} AgreeIffRoom(raw: string, h: Head, reply: Reply, headRequest: bool)
    requires raw != "" && Wires().front(raw) == HeadThen(h, reply.wireBody)
    requires h.statusLine == reply.statusLine && h.fields == reply.fields
    requires Unframe(h.fields, reply.wireBody, headRequest) == Ok(reply.body)
    ensures SplitsAlike(raw, reply, headRequest) <==> RoomForBody(h, reply, headRequest)
  {
    StreamOfReply(h, reply.wireBody, headRequest);
    if RoomForBody(h, reply, headRequest) {
      OneRow(Wires(), raw, h, reply, headRequest);
    } else {
      MoreRows(Wires(), raw, h, reply.wireBody, headRequest);
    }
  }

  // On every input the reader accepts, the splitter gives exactly the one row
  // with the same status line, fields and entity if and only if the status
  // line carries a readable code and, where that code allows no entity, the
  // body is empty.
  lemma {:induction false} ReadersAgreeIff(utf8: string -> bool, raw: string, headRequest: bool)
    requires ParseReply(utf8, raw, headRequest).Ok?
    ensures var reply := ParseReply(utf8, raw, headRequest).value;
            var head := HeadOf(SplitLines(raw[..Find(raw, BLANK, 0).value]));
            SplitsAlike(raw, reply, headRequest) <==> head.Ok? && RoomForBody(head.value, reply, headRequest)
  {
    var reply := ParseReply(utf8, raw, headRequest).value;
    var head := HeadOf(SplitLines(raw[..Find(raw, BLANK, 0).value]));
    if head.Ok? {
      AgreeIffRoom(raw, head.value, reply, headRequest);
    } else {
      assert Wires().front(raw) == BadHead(head.error);
    }
  }

  // ---------------------------------------------------------------- a body where there is no room

  predicate NoSpaces(s: string) { forall k :: 0 <= k < |s| ==> !IsSpace(s[k]) }

  lemma {:induction false} WordEndIs(s: string, from: nat, end: nat)
    requires from <= end <= |s| && (forall k :: from <= k < end ==> !IsSpace(s[k])) && (end < |s| ==> IsSpace(s[end]))
    ensures WordEnd(s, from) == end
    decreases end - from
  {
    if from < end {
      WordEndIs(s, from + 1, end);
    }
  }

  lemma {:induction false} OneWord(a: string)
    requires a != "" && NoSpaces(a)
    ensures Words(a) == [a]
  {
    WordEndIs(a, 0, |a|);
    assert a[..|a|] == a && a[|a|..] == "";
  }

  lemma {:induction false} TwoWords(a: string, b: string)
    requires a != "" && b != "" && NoSpaces(a) && NoSpaces(b)
    ensures Words(a + " " + b) == [a, b]
  {
    var s := a + " " + b;
    WordEndIs(s, 0, |a|);
    assert s[..|a|] == a && s[|a|..] == " " + b;
    assert (" " + b)[1..] == b;
    OneWord(b);
    assert LStrip(" " + b) == b && Words(" " + b) == Words(b);
  }

  lemma {:induction false} FieldIs(name: string, value: string)
    requires ':' !in name && Trimmed(value) && Lower(name) == name
    ensures FieldOf(name + ": " + value) == (name, value) && Find(name + ": " + value, ":", 0).Some?
  {
    var s := name + ": " + value;
    forall k | 0 <= k < |name| ensures !At(s, ":", k) {
      AtChar(s, ":", k, 0);
    }
    FindIs(s, ":", 0, |name|);
    assert s[..|name|] == name && s[|name| + 1..] == " " + value;
    StripPadded(" ", value, "");
    assert " " + value + "" == " " + value;
  }

  // A response with content under a code that allows none is read with it and
  // split without it.
  lemma {:induction false} NoRoomDiffers(utf8: string -> bool, lines: seq<string>, body: string)
    requires WfLines(lines) && AllFields(lines[1..]) && HeadOf(lines).Ok? && Bodiless(HeadOf(lines).value, false)
    requires Unframe(FieldsOf(lines[1..]), body, false) == Ok(body) && body != "" && utf8(body)
    ensures var r := ParseReply(utf8, Block(lines) + body, false);
            r.Ok? && r.value.body == body && !SplitsAlike(Block(lines) + body, r.value, false)
  {
    BlockEnds(lines, body);
    SplitsJoined(lines);
    ReadersAgreeIff(utf8, Block(lines) + body, false);
  }

  lemma {:induction false} HeadIs(lines: seq<string>, version: string, code: string)
    requires version != "" && code != "" && NoSpaces(version) && NoSpaces(code) && DecimalReader()(code).Some?
    requires lines != [] && lines[0] == version + " " + code
    ensures HeadOf(lines) == Ok(Head(lines[0], DecimalReader()(code).value, FieldsOf(lines[1..])))
  {
    TwoWords(version, code);
  }

  lemma {:induction false} TwoLines(a: string, b: string)
    requires '\n' !in a && '\n' !in b && b != "" && Find(b, ":", 0).Some?
    ensures WfLines([a, b]) && AllFields([a, b][1..]) && FieldsOf([a, b][1..]) == [FieldOf(b)]
  {
    assert [a, b][1..] == [b];
  }

  lemma {:induction false} DigitsFit(n: nat)
    ensures var s := N.Digits(n, 10); Trimmed(s) && '\n' !in s && DecimalReader()(s) == Some(n)
  {
    var s := N.Digits(n, 10);
    assert forall k :: 0 <= k < |s| ==> N.IsDigit(s[k], 10);
    N.SpacesAreNoDigits();
    N.ReadIntDigits(n, 10, N.TextSpace());
  }

  lemma {:induction false} NoFeeds(a: string, b: string)
    requires NoSpaces(a) && NoSpaces(b)
    ensures '\n' !in a + " " + b
  {
  }

  lemma {:induction false} FramedByLength(digits: string, body: string)
    requires DecimalReader()(digits) == Some(|body|)
    ensures Unframe([("content-length", digits)], body, false) == Ok(body)
  {
    var fields := [("content-length", digits)];
    assert fields[1..] == [];
    assert Values(fields, "content-length") == [digits];
    assert "content-length" != "transfer-encoding" by { assert "content-length"[0] != "transfer-encoding"[0]; }
    assert Values(fields, "transfer-encoding") == [];
  }

  lemma {:induction false} TwoLineBlock(a: string, b: string, body: string)
    ensures Block([a, b]) + body == a + CRLF + b + BLANK + body
  {
    assert [a, b][1..] == [b];
    assert Joined([a, b]) == a + CRLF + Joined([b]) && Joined([b]) == b;
  }

  // Such a response: a code that allows no content, and content.
  lemma {:induction false} ContentDiffers(utf8: string -> bool, version: string, code: string, body: string)
    requires version != "" && code != "" && NoSpaces(version) && NoSpaces(code)
    requires DecimalReader()(code) == Some(204) && body != "" && utf8(body)
    ensures var raw := version + " " + code + CRLF + ("content-length: " + N.Digits(|body|, 10)) + BLANK + body;
            var r := ParseReply(utf8, raw, false);
            r.Ok? && r.value.body == body && !SplitsAlike(raw, r.value, false)
  {
    var a, b := version + " " + code, "content-length: " + N.Digits(|body|, 10);
    NoFeeds(version, code);
    DigitsFit(|body|);
    LengthField(N.Digits(|body|, 10));
    TwoLines(a, b);
    HeadIs([a, b], version, code);
    FramedByLength(N.Digits(|body|, 10), body);
    NoRoomDiffers(utf8, [a, b], body);
    TwoLineBlock(a, b, body);
  }

  lemma {:induction false} LengthField(length: string)
    requires Trimmed(length) && '\n' !in length
    ensures var b := "content-length: " + length;
            FieldOf(b) == ("content-length", length) && Find(b, ":", 0).Some? && '\n' !in b && b != ""
  {
    assert Lower("content-length") == "content-length";
    FieldIs("content-length", length);
    assert "content-length" + ": " + length == "content-length: " + length;
  }

  // 204 with one byte of content.
  lemma {:induction false} ReadersDisagree(utf8: string -> bool, raw: string)
    requires utf8("x") && raw == "HTTP/1.1 204\r\ncontent-length: 1\r\n\r\nx"
    ensures var r := ParseReply(utf8, raw, false);
            r.Ok? && r.value.body == "x" && !SplitsAlike(raw, r.value, false)
  {
    CodeIs();
    var version, code, body :| version == "HTTP/1.1" && code == "204" && body == "x";
    Spelled(version, code, raw);
    ContentDiffers(utf8, version, code, body);
  }

  lemma {:induction false} CodeIs()
    ensures DecimalReader()("204") == Some(204) && N.Digits(1, 10) == "1" && NoSpaces("HTTP/1.1") && NoSpaces("204")
  {
    assert N.Digits(2, 10) == "2" && N.Digits(20, 10) == "20" && N.Digits(204, 10) == "204";
    DigitsFit(204);
  }

  lemma {:induction false} Spelled(version: string, code: string, raw: string)
    requires version == "HTTP/1.1" && code == "204" && raw == "HTTP/1.1 204\r\ncontent-length: 1\r\n\r\nx"
    requires N.Digits(1, 10) == "1"
    ensures raw == version + " " + code + CRLF + ("content-length: " + N.Digits(1, 10)) + BLANK + "x"
  {
  }
}
