// The line-level readers of `mini_yaml`: scalars and `key: value` lines.
// scripts/rust-port/device_list_differential.py
module YamlScalars {
  import opened Wrappers
  import opened Text
  import opened Trees
  import N = Numerals

  // A scalar used as a dictionary key.
  datatype Key = NullKey | BoolKey(b: bool) | IntKey(i: int) | RealKey(f: Float) | StrKey(s: string)

  type Value = Tree<Key>

  // The library code a quoted or fractional scalar goes through: json.loads on
  // double-quoted text (None where it raises), line folding, float().
  datatype Codec = Codec(quoted: string -> Option<string>, fold: string -> string, float: string -> Float)

  predicate IsInteger(s: string)
  {
    var digits := if s != "" && s[0] == '-' then s[1..] else s;
    digits != "" && N.AllDigits(digits, 10)
  }

  function IntegerValue(s: string): int
    requires IsInteger(s)
  {
    if s[0] == '-' then 0 - N.Value(s[1..], 10) else N.Value(s, 10)
  }

  // -?\\d+\\.\\d*([eE][-+]?\\d+)?
  predicate IsFraction(s: string)
  {
    var start := if s != "" && s[0] == '-' then 1 else 0;
    var dot := N.DigitsEnd(s, start);
    && start < dot < |s| && s[dot] == '.'
    && var mantissa := N.DigitsEnd(s, dot + 1);
       (mantissa == |s| || IsExponent(s[mantissa..]))
  }

  predicate IsExponent(s: string)
  {
    && s != "" && (s[0] == 'e' || s[0] == 'E')
    && var digits := if |s| > 1 && (s[1] == '-' || s[1] == '+') then 2 else 1;
       digits < |s| && N.DigitsEnd(s, digits) == |s|
  }

  function Undouble(s: string): string
    decreases |s|
  {
    if |s| < 2 then s
    else if s[0] == '\'' && s[1] == '\'' then "'" + Undouble(s[2..])
    else [s[0]] + Undouble(s[1..])
  }

  predicate Quoted(s: string, quote: char)
  {
    s != "" && s[0] == quote && s[|s| - 1] == quote
  }

  // What reads a scalar. The block parser and its layouts are independent of
  // which one it is.
  type Reader = string -> Option<Value>

  // The value of a scalar; None where the reader raises.
  function Scalar(cd: Codec, raw: string): Option<Value>
  {
    var s := Strip(raw);
    if s == "null" || s == "~" || s == "" then Some(Null)
    else if s == "true" || s == "false" then Some(Bool(s == "true"))
    else if s == "[]" then Some(List([]))
    else if s == "{}" then Some(Dict(map[]))
    else if Quoted(s, '\"') then
      match cd.quoted(s)
      case Some(t) => Some(Str(t))
      case None => None
    else if Quoted(s, '\'') then
      Some(Str(Undouble(cd.fold(if |s| == 1 then "" else s[1..|s| - 1]))))
    else if IsInteger(s) then Some(Int(IntegerValue(s)))
    else if IsFraction(s) then Some(Real(cd.float(s)))
    else Some(Str(s))
  }

  // A value as a dictionary key; None where it cannot be hashed.
  function KeyOf(v: Value): Option<Key>
  {
    match v
    case Null => Some(NullKey)
    case Bool(b) => Some(BoolKey(b))
    case Int(i) => Some(IntKey(i))
    case Real(f) => Some(RealKey(f))
    case Str(s) => Some(StrKey(s))
    case List(_) => None
    case Dict(_) => None
  }

  predicate IsDash(content: string)
  {
    content != "" && content[0] == '-' && (|content| == 1 || content[1] == ' ')
  }

  // ---------------------------------------------------------------- key: value

  predicate IsQuote(c: char) { c == '\"' || c == '\'' }

  // The end of the double-quoted token whose inside starts at i.
  function DoubleEnd(s: string, i: nat): (r: Option<nat>)
    ensures r.Some? ==> i < r.value <= |s|
    decreases |s| - i
  {
    if i >= |s| then None
    else if s[i] == '\"' then Some(i + 1)
    else if s[i] == '\\' then DoubleEnd(s, i + 2)
    else DoubleEnd(s, i + 1)
  }

  // The end of the single-quoted token whose inside starts at i.
  function SingleEnd(s: string, i: nat): (r: Option<nat>)
    ensures r.Some? ==> i < r.value <= |s|
    decreases |s| - i
  {
    if i >= |s| then None
    else if s[i] != '\'' then SingleEnd(s, i + 1)
    else if i + 1 < |s| && s[i + 1] == '\'' then SingleEnd(s, i + 2)
    else Some(i + 1)
  }

  // The first colon at or after i.
  function ColonAt(s: string, i: nat): (r: Option<nat>)
    ensures r.Some? ==> i <= r.value < |s| && s[r.value] == ':'
    ensures forall k :: i <= k < (if r.Some? then r.value else |s|) ==> s[k] != ':'
    decreases |s| - i
  {
    if i >= |s| then None else if s[i] == ':' then Some(i) else ColonAt(s, i + 1)
  }

  // The end of the key: a quoted token, or everything before the first colon.
  function KeyEnd(s: string): (r: Option<nat>)
    ensures r.Some? ==> r.value <= |s|
  {
    if s == "" then None
    else if s[0] == '\"' then DoubleEnd(s, 1)
    else if s[0] == '\'' then SingleEnd(s, 1)
    else if IsSpace(s[0]) || s[0] == ':' then None
    else ColonAt(s, 0)
  }

  // The key and the value text, given what follows the key.
  function Divide(key: string, gap: string): Option<(string, string)>
  {
    if gap == "" || gap[0] != ':' then None
    else if |gap| == 1 then Some((key, ""))
    else if !IsSpace(gap[1]) then None
    else Some((key, LStrip(gap[1..])))
  }

  // The key text and the value text of a line, if it is a `key: value` line.
  function SplitKey(s: string): Option<(string, string)>
  {
    match KeyEnd(s)
    case None => None
    case Some(end) => Divide(RStrip(s[..end]), LStrip(s[end..]))
  }

  // ------------------------------------------------- what a printed line reads as

  // Text that is one key: a quoted token, or unquoted text without a colon.
  predicate KeyText(k: string)
  {
    && k != "" && Trimmed(k)
    && if k[0] == '\"' then DoubleEnd(k, 1) == Some(|k|)
       else if k[0] == '\'' then SingleEnd(k, 1) == Some(|k|)
       else ColonAt(k, 0) == None
  }

  lemma {:induction false} DoubleEndKept(s: string, more: string, i: nat)
    requires DoubleEnd(s, i).Some?
    ensures DoubleEnd(s + more, i) == DoubleEnd(s, i)
    decreases |s| - i
  {
    if s[i] == '\\' {
      DoubleEndKept(s, more, i + 2);
    } else if s[i] != '\"' {
      DoubleEndKept(s, more, i + 1);
    }
  }

  lemma {:induction false} SingleEndKept(s: string, more: string, i: nat)
    requires SingleEnd(s, i).Some? && more != "" && more[0] != '\''
    ensures SingleEnd(s + more, i) == SingleEnd(s, i)
    decreases |s| - i
  {
    if s[i] != '\'' {
      SingleEndKept(s, more, i + 1);
    } else if i + 1 < |s| && s[i + 1] == '\'' {
      SingleEndKept(s, more, i + 2);
    }
  }

  lemma {:induction false} ColonAfter(s: string, more: string, i: nat)
    requires i <= |s| && ColonAt(s, i) == None && more != "" && more[0] == ':'
    ensures ColonAt(s + more, i) == Some(|s|)
    decreases |s| - i
  {
    if i < |s| {
      ColonAfter(s, more, i + 1);
    }
  }

  lemma KeyEndIs(k: string, more: string)
    requires KeyText(k) && more != "" && more[0] == ':'
    ensures KeyEnd(k + more) == Some(|k|)
  {
    if k[0] == '\"' {
      DoubleEndKept(k, more, 1);
    } else if k[0] == '\'' {
      SingleEndKept(k, more, 1);
    } else {
      ColonAfter(k, more, 0);
    }
  }

  // The line that holds a key and a value text; no value text, no space.
  function EntryLine(k: string, value: string): string
  {
    k + Entry(value)
  }

  function Entry(value: string): string
  {
    if value == "" then ":" else ": " + value
  }

  lemma DivideIs(k: string, value: string)
    requires Trimmed(value)
    ensures Divide(k, LStrip(Entry(value))) == Some((k, value))
  {
    if value != "" {
      assert Entry(value)[1..] == " " + value;
      LStripBlank(" ", value);
    }
  }

  // A printed entry is read as its key and its value text.
  lemma SplitKeyIs(k: string, value: string)
    requires KeyText(k) && Trimmed(value)
    ensures SplitKey(EntryLine(k, value)) == Some((k, value))
  {
    var s := EntryLine(k, value);
    KeyEndIs(k, Entry(value));
    assert s[|k|..] == Entry(value);
    assert s[..|k|] == k;
    DivideIs(k, value);
    assert RStrip(k) == k;
  }
}
