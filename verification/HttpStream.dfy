// Splitting a byte stream into HTTP/1.x responses (section 6.3 of RFC 9112):
// `parse_stream` of scripts/rust-port/http_replay_contract.py.
module HttpStream {
  import opened Wrappers
  import opened Text
  import opened HttpChunks
  import opened HttpChunkWire

  datatype Head = Head(statusLine: string, code: int, fields: seq<(string, string)>)

  // What stands at the front of the stream: no complete header block yet, one
  // that cannot be read, or one with what follows it.
  datatype Front = NoHead | BadHead(error: Error) | HeadThen(head: Head, body: string)

  // What reads the front of the stream, chunk-size lines and Content-Length
  // values. The splitter is independent of how.
  type FrontReader = f: string -> Front | forall s :: f(s).HeadThen? ==> |f(s).body| < |s| witness (s => NoHead)

  datatype Readers = Readers(front: FrontReader, line: LineReader, length: string -> Option<int>)

  datatype Row =
    | Response(head: Head, interim: bool, body: string, truncated: bool)
    | Partial(bytes: string)
  {
    predicate Truncated() { Partial? || truncated }
  }

  function Values(fields: seq<(string, string)>, name: string): seq<string>
  {
    if fields == [] then []
    else (if fields[0].0 == name then [fields[0].1] else []) + Values(fields[1..], name)
  }

  function Transfers(h: Head): seq<string> { Values(h.fields, "transfer-encoding") }
  function Lengths(h: Head): seq<string> { Values(h.fields, "content-length") }

  // Responses that never have an entity.
  predicate Bodiless(h: Head, headRequest: bool)
  {
    h.code == 100 || headRequest || h.code == 204 || h.code == 304
  }

  datatype Framed = Framed(entity: string, rest: string, truncated: bool)

  function Frame(rs: Readers, h: Head, headRequest: bool, body: string): (r: Result<Framed>)
    ensures r.Ok? ==> |r.value.rest| <= |body|
  {
    if Bodiless(h, headRequest) then Ok(Framed("", body, false))
    else if Transfers(h) != [] then
      if Transfers(h) != ["chunked"] || Lengths(h) != [] then Err(AssertionError)
      else
        match Lenient(rs.line, body, "")
        case Err(e) => Err(e)
        case Ok(Cut(entity)) => Ok(Framed(entity, "", true))
        case Ok(Complete(entity, rest)) => Ok(Framed(entity, rest, false))
    else if Lengths(h) != [] then
      if |Lengths(h)| != 1 then Err(AssertionError)
      else
        match rs.length(Lengths(h)[0])
        case None => Err(ValueError)
        case Some(size) => Ok(Framed(Upto(body, size), From(body, size), |Upto(body, size)| < size))
    else Ok(Framed(body, "", false))
  }

  function RowOf(h: Head, f: Framed): Row
  {
    Response(h, h.code == 100, f.entity, f.truncated)
  }

  function Prepend(row: Row, rows: Result<seq<Row>>): Result<seq<Row>>
  {
    match rows case Err(e) => Err(e) case Ok(more) => Ok([row] + more)
  }

  function ParseStream(rs: Readers, rest: string, headRequest: bool): Result<seq<Row>>
    decreases |rest|
  {
    if rest == "" then Ok([])
    else
      match rs.front(rest)
      case NoHead => Ok([Partial(rest)])
      case BadHead(e) => Err(e)
      case HeadThen(h, body) =>
        match Frame(rs, h, headRequest, body)
        case Err(e) => Err(e)
        case Ok(f) =>
          if f.truncated then Ok([RowOf(h, f)])
          else Prepend(RowOf(h, f), ParseStream(rs, f.rest, headRequest))
  }

  // The rows so far, in front of what is still to come.
  function After(rows: seq<Row>, more: Result<seq<Row>>): Result<seq<Row>>
  {
    match more case Err(e) => Err(e) case Ok(others) => Ok(rows + others)
  }

  lemma AfterNothing(r: Result<seq<Row>>)
    ensures After([], r) == r
  {
    if r.Ok? {
      assert [] + r.value == r.value;
    }
  }

  lemma AfterOne(rows: seq<Row>, row: Row, more: Result<seq<Row>>)
    ensures After(rows, Prepend(row, more)) == After(rows + [row], more)
  {
    if more.Ok? {
      assert rows + ([row] + more.value) == rows + [row] + more.value;
    }
  }

  // ---------------------------------------------------------------- messages

  // What follows the header block.
  datatype Payload = Bare | Sized(body: string) | Chunks(cs: seq<Chunk>, zero: string)

  // A complete response; `text` is its header block with the blank line.
  datatype Message = Message(text: string, head: Head, payload: Payload)

  function PayloadWire(p: Payload): string
  {
    match p
    case Bare => ""
    case Sized(body) => body
    case Chunks(cs, zero) => Wire(cs, zero)
  }

  function Entity(p: Payload): string
  {
    match p
    case Bare => ""
    case Sized(body) => body
    case Chunks(cs, _) => Data(cs)
  }

  function MessageWire(m: Message): string { m.text + PayloadWire(m.payload) }

  function MessageRow(m: Message): Row
  {
    Response(m.head, m.head.code == 100, Entity(m.payload), false)
  }

  // The header block is read as the head, once all of it is there.
  ghost predicate IsHeadText(rs: Readers, text: string, h: Head)
  {
    && text != ""
    && (forall body :: rs.front(text + body) == HeadThen(h, body))
    && (forall k :: 0 <= k < |text| ==> rs.front(text[..k]) == NoHead)
  }

  // The payload is framed as the head announces: none, chunked, or one length.
  ghost predicate Fits(rs: Readers, h: Head, headRequest: bool, p: Payload)
  {
    if Bodiless(h, headRequest) then p.Bare?
    else if Transfers(h) != [] then
      && Transfers(h) == ["chunked"] && Lengths(h) == []
      && p.Chunks? && WfChunks(rs.line, p.cs) && IsSizeLine(rs.line, p.zero, 0)
    else p.Sized? && |Lengths(h)| == 1 && rs.length(Lengths(h)[0]) == Some(|p.body|)
  }

  ghost predicate WfMessage(rs: Readers, m: Message, headRequest: bool)
  {
    IsHeadText(rs, m.text, m.head) && Fits(rs, m.head, headRequest, m.payload)
  }

  function Stream(ms: seq<Message>): string
  {
    if ms == [] then "" else MessageWire(ms[0]) + Stream(ms[1..])
  }

  function Rows(ms: seq<Message>): seq<Row>
  {
    if ms == [] then [] else [MessageRow(ms[0])] + Rows(ms[1..])
  }

  // ---------------------------------------------------------------- complete streams

  // A complete payload is taken exactly.
  lemma {:induction false} FramesPayload(rs: Readers, h: Head, headRequest: bool, p: Payload, more: string)
    requires Fits(rs, h, headRequest, p)
    ensures Frame(rs, h, headRequest, PayloadWire(p) + more) == Ok(Framed(Entity(p), more, false))
  {
    match p
    case Bare => assert "" + more == more;
    case Sized(body) =>
      assert Upto(body + more, |body|) == body && From(body + more, |body|) == more;
    case Chunks(cs, zero) =>
      LenientDecodes(rs.line, cs, zero, more, "");
      assert "" + Data(cs) == Data(cs);
  }

  lemma {:induction false} TakesMessage(rs: Readers, m: Message, headRequest: bool, more: string)
    requires WfMessage(rs, m, headRequest)
    ensures ParseStream(rs, MessageWire(m) + more, headRequest) == Prepend(MessageRow(m), ParseStream(rs, more, headRequest))
  {
    assert MessageWire(m) + more == m.text + (PayloadWire(m.payload) + more);
    FramesPayload(rs, m.head, headRequest, m.payload, more);
  }

  // Complete responses are split off one by one, whatever comes after them.
  lemma {:induction false} TakesMessages(rs: Readers, ms: seq<Message>, headRequest: bool, more: string)
    requires forall i :: 0 <= i < |ms| ==> WfMessage(rs, ms[i], headRequest)
    ensures ParseStream(rs, Stream(ms) + more, headRequest) == After(Rows(ms), ParseStream(rs, more, headRequest))
    decreases |ms|
  {
    if ms == [] {
      assert Stream(ms) + more == more;
      AfterNothing(ParseStream(rs, more, headRequest));
    } else {
      var rest := Stream(ms[1..]) + more;
      assert Stream(ms) + more == MessageWire(ms[0]) + rest;
      TakesMessage(rs, ms[0], headRequest, rest);
      TakesMessages(rs, ms[1..], headRequest, more);
      PrependAfter(MessageRow(ms[0]), Rows(ms[1..]), ParseStream(rs, more, headRequest));
    }
  }

  lemma PrependAfter(row: Row, rows: seq<Row>, more: Result<seq<Row>>)
    ensures Prepend(row, After(rows, more)) == After([row] + rows, more)
  {
    if more.Ok? {
      assert [row] + (rows + more.value) == [row] + rows + more.value;
    }
  }

  // A stream of complete responses is split into exactly those responses, in
  // order, each with its exact entity and none marked as truncated.
  lemma {:induction false} SplitsExactly(rs: Readers, ms: seq<Message>, headRequest: bool)
    requires forall i :: 0 <= i < |ms| ==> WfMessage(rs, ms[i], headRequest)
    ensures ParseStream(rs, Stream(ms), headRequest) == Ok(Rows(ms))
  {
    TakesMessages(rs, ms, headRequest, "");
    assert Stream(ms) + "" == Stream(ms);
    assert Rows(ms) + [] == Rows(ms);
  }

  // ---------------------------------------------------------------- streams cut short

  // The end of a stream that was cut inside message m after k bytes: a
  // truncated row with a prefix of the entity, or the failed assertion on the
  // last chunk, the latter exactly if only bytes of its final CRLF are missing.
  ghost predicate CutRow(m: Message, k: nat, r: Result<seq<Row>>)
    requires k < |MessageWire(m)|
  {
    match r
    case Err(e) => e == AssertionError && m.payload.Chunks? && k >= |MessageWire(m)| - 2
    case Ok(rows) =>
      && |rows| == 1 && rows[0].Truncated()
      && !(m.payload.Chunks? && k >= |MessageWire(m)| - 2)
      && match rows[0]
         case Partial(bytes) => k < |m.text| && bytes == m.text[..k]
         case Response(h, interim, body, _) =>
           k >= |m.text| && h == m.head && interim == (h.code == 100) && body <= Entity(m.payload)
  }

  lemma {:induction false} CutPayload(rs: Readers, m: Message, headRequest: bool, k: nat)
    requires WfMessage(rs, m, headRequest) && NeedsLineFeed(rs.line) && k < |PayloadWire(m.payload)|
    ensures var r := Frame(rs, m.head, headRequest, PayloadWire(m.payload)[..k]);
            match r
            case Err(e) => e == AssertionError && m.payload.Chunks? && k >= |PayloadWire(m.payload)| - 2
            case Ok(f) => f.truncated && f.entity <= Entity(m.payload)
                          && !(m.payload.Chunks? && k >= |PayloadWire(m.payload)| - 2)
  {
    match m.payload
    case Sized(body) =>
      assert Upto(body[..k], |body|) == body[..k];
    case Chunks(cs, zero) =>
      LenientCut(rs.line, cs, zero, k, "");
      assert "" + Data(cs) == Data(cs);
  }

  lemma {:induction false} CutMessage(rs: Readers, m: Message, headRequest: bool, k: nat)
    requires WfMessage(rs, m, headRequest) && NeedsLineFeed(rs.line) && 0 < k < |MessageWire(m)|
    ensures CutRow(m, k, ParseStream(rs, MessageWire(m)[..k], headRequest))
  {
    if k < |m.text| {
      assert MessageWire(m)[..k] == m.text[..k];
    } else {
      var left := k - |m.text|;
      assert MessageWire(m)[..k] == m.text + PayloadWire(m.payload)[..left];
      CutPayload(rs, m, headRequest, left);
    }
  }

  // A stream that is cut strictly inside its last response yields the earlier
  // responses unchanged, and never reports the cut one as complete.
  lemma {:induction false} CutStream(rs: Readers, ms: seq<Message>, last: Message, headRequest: bool, k: nat)
    requires forall i :: 0 <= i < |ms| ==> WfMessage(rs, ms[i], headRequest)
    requires WfMessage(rs, last, headRequest) && NeedsLineFeed(rs.line) && 0 < k < |MessageWire(last)|
    ensures var end := ParseStream(rs, MessageWire(last)[..k], headRequest);
            && CutRow(last, k, end)
            && ParseStream(rs, Stream(ms) + MessageWire(last)[..k], headRequest) == After(Rows(ms), end)
  {
    CutMessage(rs, last, headRequest, k);
    TakesMessages(rs, ms, headRequest, MessageWire(last)[..k]);
  }
}
