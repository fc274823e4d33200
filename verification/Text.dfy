// Searching and slicing of byte strings and text.
//
// Byte strings are modelled as strings: one character per byte.
module Text {
  import opened Wrappers

  predicate At(s: string, sub: string, i: int)
  {
    0 <= i && i + |sub| <= |s| && s[i..i + |sub|] == sub
  }

  // The first position at or after `from` where `sub` occurs.
  function Find(s: string, sub: string, from: nat): (r: Option<nat>)
    ensures r.Some? ==> from <= r.value && At(s, sub, r.value)
    ensures r.Some? ==> forall k :: from <= k < r.value ==> !At(s, sub, k)
    ensures r.None? ==> forall k :: from <= k ==> !At(s, sub, k)
    decreases |s| - from
  {
    if from > |s| then None
    else if At(s, sub, from) then Some(from)
    else Find(s, sub, from + 1)
  }

  // An occurrence with none before it is the one that is found.
  lemma FindIs(s: string, sub: string, from: nat, at: nat)
    requires from <= at && At(s, sub, at)
    requires forall k :: from <= k < at ==> !At(s, sub, k)
    ensures Find(s, sub, from) == Some(at)
  {
  }

  lemma AtChar(s: string, sub: string, i: int, k: nat)
    requires k < |sub|
    ensures At(s, sub, i) ==> s[i + k] == sub[k]
  {
    if At(s, sub, i) {
      assert s[i..i + |sub|][k] == s[i + k];
    }
  }

  // Appending text changes no occurrence that fits in the shorter text.
  lemma AtStable(s: string, more: string, sub: string, i: int)
    ensures i + |sub| <= |s| ==> (At(s + more, sub, i) <==> At(s, sub, i))
  {
    if 0 <= i && i + |sub| <= |s| {
      assert (s + more)[i..i + |sub|] == s[i..i + |sub|];
    }
  }

  // Appending text never moves a match that was already there.
  lemma FindStable(s: string, more: string, sub: string, from: nat)
    requires Find(s, sub, from).Some?
    ensures Find(s + more, sub, from) == Find(s, sub, from)
  {
    var at := Find(s, sub, from).value;
    forall k | from <= k <= at
      ensures At(s + more, sub, k) <==> At(s, sub, k)
    {
      AtStable(s, more, sub, k);
    }
    FindIs(s + more, sub, from, at);
  }

  // ---------------------------------------------------------------- Python slices

  // The index a slice bound n denotes in a sequence of length len.
  function Bound(n: int, len: nat): (r: nat)
    ensures r <= len
    ensures 0 <= n <= len ==> r == n
    ensures n >= len ==> r == len
  {
    if n >= len then len else if n >= 0 then n else if len + n > 0 then len + n else 0
  }

  function Upto(s: string, n: int): string { s[..Bound(n, |s|)] }      // s[:n]
  function From(s: string, n: int): string { s[Bound(n, |s|)..] }      // s[n:]
  function Slice(s: string, m: int, n: int): string                    // s[m:n]
  {
    var lo, hi := Bound(m, |s|), Bound(n, |s|);
    if lo <= hi then s[lo..hi] else ""
  }

  lemma {:induction false} SliceMiddle(a: string, b: string, c: string)
    ensures Slice(a + b + c, |a|, |a| + |b|) == b
  {
  }

  // ---------------------------------------------------------------- whitespace

  // str.isspace, str.strip and the \s of a text regular expression.
  predicate IsSpace(c: char)
  {
    var n := c as int;
    || 0x09 <= n <= 0x0D || 0x1C <= n <= 0x20 || n == 0x85 || n == 0xA0 || n == 0x1680
    || 0x2000 <= n <= 0x200A || n == 0x2028 || n == 0x2029 || n == 0x202F || n == 0x205F || n == 0x3000
  }

  function LStrip(s: string): (r: string)
    ensures |r| <= |s|
    ensures r != "" ==> !IsSpace(r[0]) && r[|r| - 1] == s[|s| - 1]
  {
    if s != "" && IsSpace(s[0]) then LStrip(s[1..]) else s
  }

  function RStrip(s: string): (r: string)
    ensures |r| <= |s|
    ensures r != "" ==> !IsSpace(r[|r| - 1]) && r[0] == s[0]
  {
    if s != "" && IsSpace(s[|s| - 1]) then RStrip(s[..|s| - 1]) else s
  }

  function Strip(s: string): (r: string)
    ensures |r| <= |s|
  {
    RStrip(LStrip(s))
  }

  predicate Trimmed(s: string)
  {
    s == "" || (!IsSpace(s[0]) && !IsSpace(s[|s| - 1]))
  }

  predicate Blank(s: string)
  {
    forall k :: 0 <= k < |s| ==> IsSpace(s[k])
  }

  lemma {:induction false} LStripBlank(pad: string, s: string)
    requires Blank(pad)
    ensures LStrip(pad + s) == LStrip(s)
    decreases |pad|
  {
    if pad == "" {
      assert pad + s == s;
    } else {
      assert (pad + s)[1..] == pad[1..] + s;
      LStripBlank(pad[1..], s);
    }
  }

  lemma {:induction false} RStripBlank(s: string, pad: string)
    requires Blank(pad)
    ensures RStrip(s + pad) == RStrip(s)
    decreases |pad|
  {
    if pad == "" {
      assert s + pad == s;
    } else {
      assert (s + pad)[..|s + pad| - 1] == s + pad[..|pad| - 1];
      RStripBlank(s, pad[..|pad| - 1]);
    }
  }

  // Padding on either side is what strip takes away, and all it takes away.
  lemma StripPadded(left: string, s: string, right: string)
    requires Blank(left) && Blank(right) && Trimmed(s)
    ensures Strip(left + s + right) == s
  {
    assert left + s + right == left + (s + right);
    LStripBlank(left, s + right);
    if s == "" {
      assert s + right == right + "";
      LStripBlank(right, "");
    } else {
      RStripBlank(s, right);
    }
  }

  lemma StripTrimmed(s: string)
    requires Trimmed(s)
    ensures Strip(s) == s
  {
  }

  // str.rstrip("/")
  function StripSlashes(s: string): string
  {
    if s != "" && s[|s| - 1] == '/' then StripSlashes(s[..|s| - 1]) else s
  }

  // ---------------------------------------------------------------- splitting

  // str.split on a single character.
  function SplitAt(s: string, sep: char): (r: seq<string>)
    ensures r != []
  {
    if s == "" then [""]
    else
      var rest := SplitAt(s[1..], sep);
      if s[0] == sep then [""] + rest else [[s[0]] + rest[0]] + rest[1..]
  }

  lemma {:induction false} SplitAtSep(a: string, sep: char, b: string)
    requires sep !in a
    ensures SplitAt(a + [sep] + b, sep) == [a] + SplitAt(b, sep)
  {
    var s := a + [sep] + b;
    if a == "" {
      assert s[1..] == b;
    } else {
      assert s[1..] == a[1..] + [sep] + b;
      SplitAtSep(a[1..], sep, b);
      assert [a[0]] + a[1..] == a;
    }
  }
}
