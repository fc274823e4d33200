// UTF-8 as str.encode writes it and bytes.decode reads it. A byte is a
// character below 256.
module Utf8 {
  import opened Wrappers

  // The bytes of one character.
  function Encode1(c: char): (r: string)
    ensures 1 <= |r| <= 4
    ensures c as int < 128 ==> r == [c]
    ensures c as int >= 128 ==> |r| >= 2
  {
    var n := c as int;
    if n < 0x80 then [c]
    else if n < 0x800 then [(0xC0 + n / 64) as char, Cont(n)]
    else if n < 0x10000 then [(0xE0 + n / 4096) as char, Cont(n / 64), Cont(n)]
    else [(0xF0 + n / 262144) as char, Cont(n / 4096), Cont(n / 64), Cont(n)]
  }

  // A continuation byte with the low six bits of n.
  function Cont(n: nat): char { (0x80 + n % 64) as char }

  function Encode(s: string): string
  {
    if s == "" then "" else Encode1(s[0]) + Encode(s[1..])
  }

  // The number a run of bytes stands for by its first byte.
  function Number(b: string): int
    requires b != ""
  {
    var n := b[0] as int;
    if n < 0x80 || |b| < 2 then n
    else if n < 0xE0 || |b| < 3 then (n - 0xC0) * 64 + Low(b[1])
    else if n < 0xF0 || |b| < 4 then (n - 0xE0) * 4096 + Low(b[1]) * 64 + Low(b[2])
    else (n - 0xF0) * 262144 + Low(b[1]) * 4096 + Low(b[2]) * 64 + Low(b[3])
  }

  function Low(c: char): int { c as int - 0x80 }

  predicate IsScalar(n: int) { 0 <= n < 0xD800 || 0xE000 <= n < 0x110000 }

  // The first character of some bytes; None where its bytes are not the ones
  // that encode it.
  function First(b: string): (r: Option<char>)
    requires b != ""
    ensures r.Some? ==> Encode1(r.value) <= b
  {
    if IsScalar(Number(b)) && Encode1(Number(b) as char) <= b then Some(Number(b) as char) else None
  }

  function Decode(b: string): Option<string>
    decreases |b|
  {
    if b == "" then Some("")
    else
      match First(b)
      case None => None
      case Some(c) =>
        match Decode(b[|Encode1(c)|..])
        case None => None
        case Some(rest) => Some([c] + rest)
  }

  // ---------------------------------------------------------------- there and back

  lemma {:induction false} NumberIs(c: char, more: string)
    ensures Number(Encode1(c) + more) == c as int
  {
    var n, b := c as int, Encode1(c) + more;
    assert n == n / 64 * 64 + n % 64;
    assert n / 64 == n / 4096 * 64 + n / 64 % 64;
    assert n / 4096 == n / 262144 * 64 + n / 4096 % 64;
    if n < 0x80 {
      assert b[0] == c;
    } else if n < 0x800 {
      assert b[0] == (0xC0 + n / 64) as char && b[1] == Cont(n);
    } else if n < 0x10000 {
      assert b[0] == (0xE0 + n / 4096) as char && b[1] == Cont(n / 64) && b[2] == Cont(n);
    } else {
      assert b[0] == (0xF0 + n / 262144) as char && b[1] == Cont(n / 4096) && b[2] == Cont(n / 64) && b[3] == Cont(n);
    }
  }

  lemma {:induction false} FirstIs(c: char, more: string)
    ensures First(Encode1(c) + more) == Some(c)
  {
    NumberIs(c, more);
  }

  lemma {:induction false} DecodeCons(c: char, more: string)
    requires Decode(more).Some?
    ensures Decode(Encode1(c) + more) == Some([c] + Decode(more).value)
  {
    FirstIs(c, more);
    assert (Encode1(c) + more)[|Encode1(c)|..] == more;
  }

  // Encoded text is decoded to itself.
  lemma {:induction false} DecodeEncode(s: string)
    ensures Decode(Encode(s)) == Some(s)
  {
    if s != "" {
      DecodeEncode(s[1..]);
      DecodeCons(s[0], Encode(s[1..]));
      assert s == [s[0]] + s[1..];
    }
  }

  lemma {:induction false} EncodeCons(c: char, rest: string)
    ensures Encode([c] + rest) == Encode1(c) + Encode(rest)
  {
    assert ([c] + rest)[1..] == rest;
  }

  lemma {:induction false} DecodeSplit(b: string) returns (c: char, rest: string)
    requires b != "" && Decode(b).Some?
    ensures b == Encode1(c) + rest && |rest| < |b|
    ensures Decode(rest).Some? && Decode(b).value == [c] + Decode(rest).value
  {
    c := First(b).value;
    rest := b[|Encode1(c)|..];
  }

  // Whatever is decoded is what encodes to it.
  lemma {:induction false} DecodedIs(b: string)
    requires Decode(b).Some?
    ensures Encode(Decode(b).value) == b
    decreases |b|
  {
    if b != "" {
      var c, rest := DecodeSplit(b);
      DecodedIs(rest);
      EncodeCons(c, Decode(rest).value);
    }
  }

  lemma {:induction false} EncodeConcat(a: string, b: string)
    ensures Encode(a + b) == Encode(a) + Encode(b)
  {
    if a == "" {
      assert a + b == b;
    } else {
      assert (a + b)[1..] == a[1..] + b;
      EncodeConcat(a[1..], b);
    }
  }

  predicate Ascii(s: string) { forall k :: 0 <= k < |s| ==> s[k] as int < 128 }

  lemma {:induction false} AsciiIsItself(s: string)
    requires Ascii(s)
    ensures Encode(s) == s && Decode(s) == Some(s)
  {
    EncodeAscii(s);
    DecodeEncode(s);
  }

  lemma {:induction false} EncodeAscii(s: string)
    requires Ascii(s)
    ensures Encode(s) == s
  {
    if s != "" {
      EncodeAscii(s[1..]);
      assert s == [s[0]] + s[1..];
    }
  }

  // Every character has a byte, and only text in ASCII has no more than that.
  lemma {:induction false} EncodedLength(s: string)
    ensures |Encode(s)| >= |s|
    ensures |Encode(s)| == |s| <==> Ascii(s)
  {
    if s != "" {
      EncodedLength(s[1..]);
      assert Ascii(s) <==> s[0] as int < 128 && Ascii(s[1..]);
    }
  }

  lemma {:induction false} PrefixEncoded(a: string, s: string)
    requires a <= s
    ensures Encode(a) <= Encode(s)
  {
    assert s == a + s[|a|..];
    EncodeConcat(a, s[|a|..]);
  }

  lemma {:induction false} SameFirst(c: char, d: char, x: string, y: string)
    requires Encode1(c) + x <= Encode1(d) + y
    ensures c == d && x <= y
  {
    var more := (Encode1(d) + y)[|Encode1(c) + x|..];
    assert Encode1(d) + y == Encode1(c) + (x + more);
    FirstIs(c, x + more);
    FirstIs(d, y);
    assert y == (Encode1(d) + y)[|Encode1(d)|..] == x + more;
  }

  // Bytes at the front of encoded text that are text are text at its front.
  lemma {:induction false} PrefixOf(a: string, s: string)
    requires Encode(a) <= Encode(s)
    ensures a <= s
    decreases |a|
  {
    EncodedLength(a);
    if a != "" {
      SameFirst(a[0], s[0], Encode(a[1..]), Encode(s[1..]));
      PrefixOf(a[1..], s[1..]);
      assert a == [a[0]] + a[1..] && s == [s[0]] + s[1..];
    }
  }
}
