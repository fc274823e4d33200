// Exactly which bodies the strict chunk decoder accepts, against the wire form
// of section 7.1 of RFC 9112: scripts/rust-port/http_process_contract.py.
module HttpChunkGrammar {
  import opened Wrappers
  import opened Text
  import opened HttpChunks
  import opened HttpChunkWire
  import N = Numerals

  // A line that ends where the next CRLF is.
  predicate IsLine(line: string) { Find(line + CRLF, CRLF, 0) == Some(|line|) }

  // A size line with the number n on it.
  predicate Says(rd: SizeReader, line: string, n: int) { IsLine(line) && rd(line) == Some(n) }

  // Chunks in the wire form: each size line gives the length of its data, and
  // the last one gives zero.
  predicate Proper(rd: SizeReader, cs: seq<Chunk>, zero: string)
  {
    Says(rd, zero, 0) && forall i :: 0 <= i < |cs| ==> cs[i].data != "" && Says(rd, cs[i].size, |cs[i].data|)
  }

  // The numbers the decoder takes for the size of data with more after it: its
  // length, or minus the length of its CRLF and all that follows.
  predicate Counts(n: int, data: string, more: string)
  {
    (n > 0 && n == |data|) || n == -(|more| + 2)
  }

  // The chunks it accepts.
  predicate Accepted(rd: SizeReader, cs: seq<Chunk>, zero: string)
    decreases |cs|
  {
    if cs == [] then Says(rd, zero, 0)
    else TakesChunk(rd, cs[0], Wire(cs[1..], zero)) && Accepted(rd, cs[1..], zero)
  }

  predicate TakesChunk(rd: SizeReader, c: Chunk, more: string)
  {
    IsLine(c.size) && match rd(c.size) case None => false case Some(n) => Counts(n, c.data, more)
  }

  // ---------------------------------------------------------------- lines

  lemma {:induction false} LineIsFirst(rd: SizeReader, line: string, n: int, after: string)
    requires Says(rd, line, n)
    ensures FirstLine(rd, line + CRLF + after) == Line(n, after)
  {
    var s := line + CRLF + after;
    FindStable(line + CRLF, after, CRLF, 0);
    assert s[..|line|] == line && s[|line| + 2..] == after;
  }

  lemma {:induction false} FirstIsLine(rd: SizeReader, body: string) returns (line: string)
    requires FirstLine(rd, body).Line?
    ensures body == line + CRLF + FirstLine(rd, body).after && Says(rd, line, FirstLine(rd, body).size)
  {
    var end := Find(body, CRLF, 0).value;
    line := body[..end];
    assert body[end..end + 2] == CRLF;
    assert body == line + CRLF + body[end + 2..];
    forall k | 0 <= k < end ensures !At(line + CRLF, CRLF, k) {
      AtStable(line + CRLF, body[end + 2..], CRLF, k);
    }
    assert At(line + CRLF, CRLF, end);
    FindIs(line + CRLF, CRLF, 0, end);
  }

  // ---------------------------------------------------------------- one chunk

  // A size that counts from the end leaves the rest of the body after it.
  lemma {:induction false} SplitBefore(data: string, more: string)
    requires more != ""
    ensures var s, n := data + CRLF + more, -(|more| + 2);
            Upto(s, n) == data && From(s, n + 2) == more && Followed(s, n)
  {
    var s, n := data + CRLF + more, -(|more| + 2);
    assert Bound(n, |s|) == |data| && Bound(n + 2, |s|) == |data| + 2;
    assert s[|data|..|data| + 2] == CRLF;
  }

  // The only ways a chunk can be followed by its CRLF.
  lemma {:induction false} FollowedSplits(after: string, size: int)
    requires size != 0 && Followed(after, size)
    ensures var data, more := Upto(after, size), From(after, size + 2);
            after == data + CRLF + more && ((size > 0 && size == |data|) || size == -(|more| + 2))
  {
    var lo, hi := Bound(size, |after|), Bound(size + 2, |after|);
    assert |Slice(after, size, size + 2)| == 2;
    assert hi == lo + 2 && after[lo..hi] == CRLF;
    assert after == after[..lo] + after[lo..hi] + after[hi..];
  }

  lemma {:induction false} TakeOff(lr: LineReader, body: string, n: int, after: string, done: string)
    requires lr(body) == Line(n, after) && n != 0 && Followed(after, n)
    ensures Strict(lr, body, done) == Strict(lr, From(after, n + 2), done + Upto(after, n))
    ensures NonNegative(lr, body) <==> n > 0 && NonNegative(lr, From(after, n + 2))
  {
  }

  // A chunk is taken off with its data.
  lemma {:induction false} ChunkStep(rd: SizeReader, line: string, data: string, more: string, n: int, done: string)
    requires Says(rd, line, n) && Counts(n, data, more) && more != ""
    ensures var body := line + CRLF + (data + CRLF + more);
            && Strict(Lines(rd), body, done) == Strict(Lines(rd), more, done + data)
            && (NonNegative(Lines(rd), body) <==> n > 0 && NonNegative(Lines(rd), more))
  {
    LineIsFirst(rd, line, n, data + CRLF + more);
    if n > 0 {
      SplitAfter(data, more);
    } else {
      SplitBefore(data, more);
    }
    TakeOff(Lines(rd), line + CRLF + (data + CRLF + more), n, data + CRLF + more, done);
  }

  // The last chunk.
  lemma {:induction false} LastStep(rd: SizeReader, zero: string, done: string)
    requires Says(rd, zero, 0)
    ensures var body := zero + CRLF + CRLF; Strict(Lines(rd), body, done) == Ok(done) && NonNegative(Lines(rd), body)
  {
    LineIsFirst(rd, zero, 0, CRLF);
  }

  // Whatever is decoded starts with such a chunk.
  lemma {:induction false} FirstChunk(rd: SizeReader, body: string, done: string)
    returns (line: string, data: string, more: string, n: int)
    requires Strict(Lines(rd), body, done).Ok? && FirstLine(rd, body).size != 0
    ensures body == line + CRLF + (data + CRLF + more) && Says(rd, line, n) && Counts(n, data, more)
    ensures Strict(Lines(rd), more, done + data) == Strict(Lines(rd), body, done)
  {
    line := FirstIsLine(rd, body);
    n := FirstLine(rd, body).size;
    var after := FirstLine(rd, body).after;
    data, more := Upto(after, n), From(after, n + 2);
    FollowedSplits(after, n);
  }

  // ---------------------------------------------------------------- acceptance

  lemma {:induction false} WireStep(c: Chunk, cs: seq<Chunk>, zero: string)
    ensures ([c] + cs)[1..] == cs
    ensures Wire([c] + cs, zero) == c.size + CRLF + (c.data + CRLF + Wire(cs, zero)) && Wire(cs, zero) != ""
  {
    assert ([c] + cs)[1..] == cs;
    WireLength(cs, zero);
  }

  // Accepted chunks are decoded to their data.
  lemma {:induction false} AcceptedDecodes(rd: SizeReader, cs: seq<Chunk>, zero: string, done: string)
    requires Accepted(rd, cs, zero)
    ensures Strict(Lines(rd), Wire(cs, zero), done) == Ok(done + Data(cs))
    decreases |cs|
  {
    DataSplit(done, cs);
    if cs == [] {
      LastStep(rd, zero, done);
    } else {
      var c, more := cs[0], Wire(cs[1..], zero);
      WireLength(cs[1..], zero);
      ChunkStep(rd, c.size, c.data, more, rd(c.size).value, done);
      AcceptedDecodes(rd, cs[1..], zero, done + c.data);
    }
  }

  // Whatever is decoded is a list of accepted chunks.
  lemma {:induction false} DecodedIsAccepted(rd: SizeReader, body: string, done: string) returns (cs: seq<Chunk>, zero: string)
    requires Strict(Lines(rd), body, done).Ok?
    ensures body == Wire(cs, zero) && Accepted(rd, cs, zero)
    decreases |body|
  {
    if FirstLine(rd, body).size == 0 {
      zero := FirstIsLine(rd, body);
      cs := [];
    } else {
      var line, data, more, n := FirstChunk(rd, body, done);
      var others;
      others, zero := DecodedIsAccepted(rd, more, done + data);
      cs := [Chunk(line, data)] + others;
      WireStep(Chunk(line, data), others, zero);
    }
  }

  // The strict decoder accepts exactly the chunks of this form, and decodes
  // them to their data.
  lemma {:induction false} AcceptsIff(rd: SizeReader, body: string)
    ensures Strict(Lines(rd), body, "").Ok? <==> exists cs, zero :: IsWire(rd, body, cs, zero)
    ensures forall cs, zero :: IsWire(rd, body, cs, zero) ==> Strict(Lines(rd), body, "") == Ok(Data(cs))
  {
    if Strict(Lines(rd), body, "").Ok? {
      var cs, zero := DecodedIsAccepted(rd, body, "");
      assert IsWire(rd, body, cs, zero);
    }
    forall cs, zero | IsWire(rd, body, cs, zero) ensures Strict(Lines(rd), body, "") == Ok(Data(cs)) {
      AcceptedDecodes(rd, cs, zero, "");
      assert "" + Data(cs) == Data(cs);
    }
  }

  predicate IsWire(rd: SizeReader, body: string, cs: seq<Chunk>, zero: string)
  {
    body == Wire(cs, zero) && Accepted(rd, cs, zero)
  }

  // ---------------------------------------------------------------- the proper form

  // No size line that is read holds a negative number.
  predicate NonNegative(lr: LineReader, body: string)
    decreases |body|
  {
    match lr(body)
    case NoLine => true
    case NoSize => true
    case Line(size, after) => size == 0 || (size > 0 && NonNegative(lr, From(after, size + 2)))
  }

  lemma {:induction false} ProperIffNonNegative(rd: SizeReader, cs: seq<Chunk>, zero: string)
    ensures Proper(rd, cs, zero) <==> Accepted(rd, cs, zero) && NonNegative(Lines(rd), Wire(cs, zero))
    decreases |cs|
  {
    if cs == [] {
      if Says(rd, zero, 0) {
        LastStep(rd, zero, "");
      }
    } else {
      var c, more := cs[0], Wire(cs[1..], zero);
      ProperIffNonNegative(rd, cs[1..], zero);
      ProperStep(rd, cs, zero);
      WireLength(cs[1..], zero);
      if TakesChunk(rd, c, more) {
        ChunkStep(rd, c.size, c.data, more, rd(c.size).value, "");
      }
    }
  }

  lemma {:induction false} ProperStep(rd: SizeReader, cs: seq<Chunk>, zero: string)
    requires cs != []
    ensures Proper(rd, cs, zero) <==>
      cs[0].data != "" && Says(rd, cs[0].size, |cs[0].data|) && Proper(rd, cs[1..], zero)
  {
    assert forall i :: 1 <= i < |cs| ==> cs[i] == cs[1..][i - 1];
    assert cs == [cs[0]] + cs[1..];
  }

  predicate IsProperWire(rd: SizeReader, body: string, cs: seq<Chunk>, zero: string)
  {
    body == Wire(cs, zero) && Proper(rd, cs, zero)
  }

  // The wire form is what is accepted without a negative size.
  lemma {:induction false} ProperIff(rd: SizeReader, body: string)
    ensures (exists cs, zero :: IsProperWire(rd, body, cs, zero))
        <==> Strict(Lines(rd), body, "").Ok? && NonNegative(Lines(rd), body)
  {
    AcceptsIff(rd, body);
    if cs, zero :| IsProperWire(rd, body, cs, zero) {
      ProperIffNonNegative(rd, cs, zero);
      assert IsWire(rd, body, cs, zero);
    }
    if Strict(Lines(rd), body, "").Ok? && NonNegative(Lines(rd), body) {
      var cs, zero :| IsWire(rd, body, cs, zero);
      ProperIffNonNegative(rd, cs, zero);
      assert IsProperWire(rd, body, cs, zero);
    }
  }

  // ---------------------------------------------------------------- a negative size

  const NEGATIVE: string := "-7\r\nabc\r\n0\r\n\r\n"

  lemma {:induction false} ReadsMinusSeven()
    ensures HexReader()("-7") == Some(-7)
  {
    var s := "-7";
    assert N.Trim(s, N.ByteSpace()) == s && s[1..] == "7";
    assert N.Digits(7, 16) == "7";
    N.UngroupedDigits("7", 16);
  }

  lemma {:induction false} NegativeIsWire()
    ensures NEGATIVE == Wire([Chunk("-7", "abc")], "0") && |Wire([], "0")| == 5 && Data([Chunk("-7", "abc")]) == "abc"
  {
    var cs := [Chunk("-7", "abc")];
    assert cs[1..] == [];
    assert Data([]) == "";
  }

  lemma {:induction false} NegativeIsAccepted()
    ensures Accepted(HexReader(), [Chunk("-7", "abc")], "0")
  {
    var cs := [Chunk("-7", "abc")];
    NegativeIsWire();
    ReadsMinusSeven();
    NoFeedIsLine("-7");
    NoFeedIsLine("0");
    ZeroLine();
    N.SpacesAreNoDigits();
    N.ReadIntDigits(0, 16, N.ByteSpace());
    assert cs[1..] == [];
    assert Says(HexReader(), "0", 0);
  }

  // Both decoders take a body with a negative size for a complete one.
  lemma {:induction false} NegativeSizeIsAccepted()
    ensures Strict(HexLines(), NEGATIVE, "") == Ok("abc")
    ensures Lenient(HexLines(), NEGATIVE, "") == Ok(Complete("abc", ""))
    ensures !NonNegative(HexLines(), NEGATIVE)
  {
    NegativeIsWire();
    NegativeIsAccepted();
    NegativeIsDecoded(HexReader(), [Chunk("-7", "abc")], "0");
    ReadsMinusSeven();
  }

  lemma {:induction false} NegativeIsDecoded(rd: SizeReader, cs: seq<Chunk>, zero: string)
    requires Accepted(rd, cs, zero) && cs != [] && !(rd(cs[0].size).value > 0)
    ensures Strict(Lines(rd), Wire(cs, zero), "") == Ok(Data(cs))
    ensures Lenient(Lines(rd), Wire(cs, zero), "") == Ok(Complete(Data(cs), ""))
    ensures !NonNegative(Lines(rd), Wire(cs, zero))
  {
    AcceptedDecodes(rd, cs, zero, "");
    DecodersAgree(Lines(rd), Wire(cs, zero), "");
    assert "" + Data(cs) == Data(cs);
    WireLength(cs[1..], zero);
    ChunkStep(rd, cs[0].size, cs[0].data, Wire(cs[1..], zero), rd(cs[0].size).value, "");
  }

  lemma {:induction false} NoFeedIsLine(line: string)
    requires '\n' !in line
    ensures IsLine(line)
  {
    LineEnds(line, "");
    assert line + CRLF + "" == line + CRLF;
  }
}
