// The chunked transfer coding (section 7.1 of RFC 9112): two independent
// decoders and the printers of the framing contract.
// scripts/rust-port/http_replay_contract.py, http_process_contract.py,
// http_framing_contract.py
module HttpChunks {
  import opened Wrappers
  import opened Text
  import N = Numerals

  const CRLF: string := "\r\n"

  // ---------------------------------------------------------------- decoders

  // What reads the number on a chunk-size line.
  type SizeReader = string -> Option<int>

  // int(line, 16) on bytes.
  function HexReader(): SizeReader
  {
    line => N.ReadInt(line, 16, N.ByteSpace())
  }

  datatype Chunked = Complete(entity: string, rest: string) | Cut(entity: string)

  // The first size line of a body: its number and what follows it.
  datatype SizeLine = NoLine | NoSize | Line(size: int, after: string)

  function FirstLine(rd: SizeReader, body: string): (r: SizeLine)
    ensures r.Line? ==> |r.after| + 2 <= |body|
  {
    match Find(body, CRLF, 0)
    case None => NoLine
    case Some(end) =>
      match rd(body[..end])
      case None => NoSize
      case Some(size) => Line(size, body[end + 2..])
  }

  // What takes the size line off a body. The decoders are independent of how.
  type LineReader = f: string -> SizeLine | forall s :: f(s).Line? ==> |f(s).after| < |s| witness (s => NoLine)

  function Lines(rd: SizeReader): LineReader
  {
    s => FirstLine(rd, s)
  }

  // The chunk loop of the stream splitter: it skips two bytes after each chunk
  // without looking at them and stops where the input ends.
  function Lenient(lr: LineReader, rest: string, entity: string): (r: Result<Chunked>)
    ensures r.Ok? && r.value.Complete? ==> |r.value.rest| <= |rest|
    decreases |rest|
  {
    match lr(rest)
    case NoLine => Ok(Cut(entity))
    case NoSize => Err(ValueError)
    case Line(size, after) =>
      if size == 0 then
        if Upto(after, 2) == CRLF then Ok(Complete(entity, From(after, 2))) else Err(AssertionError)
      else Lenient(lr, From(after, size + 2), entity + Upto(after, size))
  }

  // Two bytes after a chunk are the CRLF that belongs there.
  predicate Followed(after: string, size: int)
  {
    |after| >= size + 2 && Slice(after, size, size + 2) == CRLF
  }

  // The chunk loop of the single-response reader: it checks every separator
  // and that nothing follows the last chunk.
  function Strict(lr: LineReader, body: string, chunks: string): Result<string>
    decreases |body|
  {
    match lr(body)
    case NoLine => Err(ValueError)
    case NoSize => Err(ValueError)
    case Line(size, after) =>
      if size == 0 then if after == CRLF then Ok(chunks) else Err(AssertionError)
      else if Followed(after, size) then Strict(lr, From(after, size + 2), chunks + Upto(after, size))
      else Err(AssertionError)
  }

  // The splitter's loop as it runs.
  method DecodeLenient(rd: SizeReader, body: string) returns (r: Result<Chunked>)
    ensures r == Lenient(Lines(rd), body, "")
  {
    var entity, rest := "", body;
    while true
      invariant Lenient(Lines(rd), rest, entity) == Lenient(Lines(rd), body, "")
      decreases |rest|
    {
      var line := ReadLine(rd, rest);
      match line {
        case NoLine => return Ok(Cut(entity));
        case NoSize => return Err(ValueError);
        case Line(size, after) =>
          if size == 0 {
            if Upto(after, 2) != CRLF {
              return Err(AssertionError);
            }
            return Ok(Complete(entity, From(after, 2)));
          }
          entity, rest := entity + Upto(after, size), From(after, size + 2);
      }
    }
  }

  // Find the end of the line, read its number, drop it.
  method ReadLine(rd: SizeReader, body: string) returns (r: SizeLine)
    ensures r == FirstLine(rd, body)
  {
    var lineEnd := Find(body, CRLF, 0);
    if lineEnd.None? {
      return NoLine;
    }
    var size := rd(body[..lineEnd.value]);
    if size.None? {
      return NoSize;
    }
    return Line(size.value, body[lineEnd.value + 2..]);
  }

  // The reader's loop as it runs.
  method DecodeStrict(rd: SizeReader, wire: string) returns (r: Result<string>)
    ensures r == Strict(Lines(rd), wire, "")
  {
    var chunks, body := "", wire;
    while true
      invariant Strict(Lines(rd), body, chunks) == Strict(Lines(rd), wire, "")
      decreases |body|
    {
      var line := ReadLine(rd, body);
      match line {
        case NoLine => return Err(ValueError);
        case NoSize => return Err(ValueError);
        case Line(length, after) =>
          if length == 0 {
            return if after == CRLF then Ok(chunks) else Err(AssertionError);
          }
          if !Followed(after, length) {
            return Err(AssertionError);
          }
          chunks, body := chunks + Upto(after, length), From(after, length + 2);
      }
    }
  }

  // ---------------------------------------------------------------- the decoders compared

  // Every chunk that is read is followed by its CRLF.
  predicate AllFollowed(lr: LineReader, body: string)
    decreases |body|
  {
    match lr(body)
    case Line(size, after) => size == 0 || (Followed(after, size) && AllFollowed(lr, From(after, size + 2)))
    case _ => true
  }

  // What the lenient decoder takes as a whole, the strict one accepts exactly
  // if every chunk is followed by its CRLF, and then as the same entity.
  lemma {:induction false} StrictIffFollowed(lr: LineReader, body: string, done: string, entity: string)
    requires Lenient(lr, body, done) == Ok(Complete(entity, ""))
    ensures Strict(lr, body, done) == Ok(entity) <==> AllFollowed(lr, body)
    ensures Strict(lr, body, done).Ok? <==> AllFollowed(lr, body)
    decreases |body|
  {
    match lr(body)
    case Line(size, after) =>
      if size == 0 {
        assert after == Upto(after, 2) + From(after, 2);
      } else {
        StrictIffFollowed(lr, From(after, size + 2), done + Upto(after, size), entity);
      }
  }

  // What the strict decoder accepts, the lenient one takes for the same entity
  // with nothing left, whatever the bytes.
  lemma {:induction false} DecodersAgree(lr: LineReader, body: string, done: string)
    ensures Strict(lr, body, done).Ok? ==> Lenient(lr, body, done) == Ok(Complete(Strict(lr, body, done).value, ""))
    decreases |body|
  {
    match lr(body)
    case NoLine =>
    case NoSize =>
    case Line(size, after) =>
      if size != 0 {
        DecodersAgree(lr, From(after, size + 2), done + Upto(after, size));
      }
  }
}
