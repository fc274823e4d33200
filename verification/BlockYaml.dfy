// `mini_yaml`, the reader of block-style YAML that compares the output of two
// different encoders: scripts/rust-port/device_list_differential.py.
module BlockYaml {
  import opened Wrappers
  import opened Text
  import opened Trees
  import opened YamlScalars

  datatype Line = Line(indent: nat, content: string)

  // ---------------------------------------------------------------- the parser

  // A parser that is called at the indent of the current line leaves fewer
  // lines than it was given; otherwise it leaves them all.

  function Parse(rd: Reader, ls: seq<Line>, indent: nat): (r: Result<(Value, seq<Line>)>)
    requires ls != []
    ensures r.Ok? && ls[0].indent == indent ==> |r.value.1| < |ls|
    ensures r.Ok? && ls[0].indent != indent ==> r.value.1 == ls
    decreases |ls|, |ls[0].content|, 3
  {
    if IsDash(ls[0].content) then ParseItems(rd, ls, indent, [])
    else ParseEntries(rd, ls, indent, map[])
  }

  function ParseItems(rd: Reader, ls: seq<Line>, indent: nat, items: seq<Value>): (r: Result<(Value, seq<Line>)>)
    ensures r.Ok? && ls != [] && ls[0].indent == indent && IsDash(ls[0].content) ==> |r.value.1| < |ls|
    ensures r.Ok? ==> |r.value.1| <= |ls|
    ensures r.Ok? && ls != [] && ls[0].indent != indent ==> r.value.1 == ls
    decreases |ls|, if ls == [] then 0 else |ls[0].content|, 2
  {
    if ls == [] || ls[0].indent != indent || !IsDash(ls[0].content) then Ok((List(items), ls))
    else match ParseItem(rd, ls, indent)
      case Err(e) => Err(e)
      case Ok((item, rest)) => ParseItems(rd, rest, indent, items + [item])
  }

  // What follows the dash.
  function ItemText(content: string): (r: string)
    requires IsDash(content)
    ensures |r| < |content|
  {
    Strip(content[1..])
  }

  // The lines with the current one replaced by its own tail, two columns in.
  function Rewritten(ls: seq<Line>, indent: nat): (r: seq<Line>)
    requires ls != [] && IsDash(ls[0].content)
  {
    [Line(indent + 2, ItemText(ls[0].content))] + ls[1..]
  }

  function ParseItem(rd: Reader, ls: seq<Line>, indent: nat): (r: Result<(Value, seq<Line>)>)
    requires ls != [] && IsDash(ls[0].content)
    ensures r.Ok? ==> |r.value.1| < |ls|
    decreases |ls|, |ls[0].content|, 0
  {
    var rest := ItemText(ls[0].content);
    if rest == "" then
      if |ls| > 1 && ls[1].indent > indent then Parse(rd, ls[1..], ls[1].indent)
      else Ok((Null, ls[1..]))
    else if !IsQuote(rest[0]) && SplitKey(rest).Some? then
      Parse(rd, Rewritten(ls, indent), indent + 2)
    else
      match rd(rest)
      case None => Err(ValueError)
      case Some(v) => Ok((v, ls[1..]))
  }

  function ParseEntries(rd: Reader, ls: seq<Line>, indent: nat, entries: map<Key, Value>): (r: Result<(Value, seq<Line>)>)
    ensures r.Ok? && ls != [] && ls[0].indent == indent && !IsDash(ls[0].content) ==> |r.value.1| < |ls|
    ensures r.Ok? ==> |r.value.1| <= |ls|
    ensures r.Ok? && ls != [] && ls[0].indent != indent ==> r.value.1 == ls
    decreases |ls|, if ls == [] then 0 else |ls[0].content|, 2
  {
    if ls == [] || ls[0].indent != indent || IsDash(ls[0].content) then Ok((Dict(entries), ls))
    else match ParseEntry(rd, ls, indent)
      case Err(e) => Err(e)
      case Ok((key, value, rest)) => ParseEntries(rd, rest, indent, entries[key := value])
  }

  function ParseEntry(rd: Reader, ls: seq<Line>, indent: nat): (r: Result<(Key, Value, seq<Line>)>)
    requires ls != []
    ensures r.Ok? ==> |r.value.2| < |ls|
    decreases |ls|, |ls[0].content|, 1
  {
    match SplitKey(ls[0].content)
    case None => Err(AssertionError)
    case Some((keyText, valueText)) =>
      match rd(keyText)
      case None => Err(ValueError)
      case Some(keyValue) =>
        match ParseEntryValue(rd, ls, indent, valueText)
        case Err(e) => Err(e)
        case Ok((value, rest)) =>
          match KeyOf(keyValue)
          case None => Err(TypeError)
          case Some(key) => Ok((key, value, rest))
  }

  function ParseEntryValue(rd: Reader, ls: seq<Line>, indent: nat, text: string): (r: Result<(Value, seq<Line>)>)
    requires ls != []
    ensures r.Ok? ==> |r.value.1| < |ls|
    decreases |ls|, 0, 0
  {
    if Strip(text) != "" then
      match rd(text)
      case None => Err(ValueError)
      case Some(v) => Ok((v, ls[1..]))
    else if |ls| > 1 && (ls[1].indent > indent || (ls[1].indent == indent && IsDash(ls[1].content))) then
      Parse(rd, ls[1..], ls[1].indent)
    else Ok((Null, ls[1..]))
  }

  // ------------------------------------------------- one step of each loop

  function DashLine(text: string): string { "- " + text }

  // Text that fits on one line as it stands.
  predicate OneLine(text: string)
  {
    text != "" && Trimmed(text) && '\n' !in text
  }

  lemma {:induction false} DashLineIs(text: string)
    requires OneLine(text)
    ensures IsDash(DashLine(text)) && ItemText(DashLine(text)) == text
  {
    var s := DashLine(text);
    assert s[1..] == " " + text + "";
    StripPadded(" ", text, "");
  }

  // What may follow a sequence block or a mapping block at indent d.
  predicate AfterItems(d: nat, tail: seq<Line>)
  {
    tail == [] || tail[0].indent < d || (tail[0].indent == d && !IsDash(tail[0].content))
  }

  predicate AfterFields(d: nat, tail: seq<Line>)
  {
    tail == [] || tail[0].indent < d
  }

  predicate StartsItem(d: nat, ls: seq<Line>)
  {
    ls != [] && ls[0].indent == d && IsDash(ls[0].content)
  }

  predicate StartsEntry(d: nat, ls: seq<Line>)
  {
    ls != [] && ls[0].indent == d && !IsDash(ls[0].content)
  }

  lemma {:induction false} ParseSequence(rd: Reader, ls: seq<Line>, d: nat)
    requires StartsItem(d, ls)
    ensures Parse(rd, ls, d) == ParseItems(rd, ls, d, [])
  {
  }

  lemma {:induction false} ParseMapping(rd: Reader, ls: seq<Line>, d: nat)
    requires StartsEntry(d, ls)
    ensures Parse(rd, ls, d) == ParseEntries(rd, ls, d, map[])
  {
  }

  lemma {:induction false} ItemsStep(rd: Reader, ls: seq<Line>, d: nat, acc: seq<Value>, v: Value, rest: seq<Line>)
    requires StartsItem(d, ls) && ParseItem(rd, ls, d) == Ok((v, rest))
    ensures ParseItems(rd, ls, d, acc) == ParseItems(rd, rest, d, acc + [v])
  {
  }

  lemma {:induction false} ItemScalar(rd: Reader, text: string, d: nat, more: seq<Line>)
    requires OneLine(text) && rd(text).Some? && (IsQuote(text[0]) || SplitKey(text).None?)
    ensures IsDash(DashLine(text))
    ensures ParseItem(rd, [Line(d, DashLine(text))] + more, d) == Ok((rd(text).value, more))
  {
    DashLineIs(text);
    assert ([Line(d, DashLine(text))] + more)[1..] == more;
  }

  lemma {:induction false} ItemNull(rd: Reader, d: nat, more: seq<Line>)
    requires more == [] || more[0].indent <= d
    ensures ParseItem(rd, [Line(d, "-")] + more, d) == Ok((Null, more))
  {
    assert ([Line(d, "-")] + more)[1..] == more;
  }

  lemma {:induction false} ItemBlock(rd: Reader, d: nat, more: seq<Line>)
    requires more != [] && more[0].indent > d
    ensures ParseItem(rd, [Line(d, "-")] + more, d) == Parse(rd, more, more[0].indent)
  {
    assert ([Line(d, "-")] + more)[1..] == more;
  }

  // A mapping on the dash line is parsed as if it stood two columns further in.
  lemma {:induction false} ItemCompact(rd: Reader, text: string, d: nat, more: seq<Line>)
    requires OneLine(text) && !IsQuote(text[0]) && SplitKey(text).Some?
    ensures IsDash(DashLine(text))
    ensures ParseItem(rd, [Line(d, DashLine(text))] + more, d) == Parse(rd, [Line(d + 2, text)] + more, d + 2)
  {
    DashLineIs(text);
    var ls := [Line(d, DashLine(text))] + more;
    assert ls[1..] == more;
    assert Rewritten(ls, d) == [Line(d + 2, text)] + more;
  }

  lemma {:induction false} EntriesStep(rd: Reader, ls: seq<Line>, d: nat, acc: map<Key, Value>, k: Key, v: Value, rest: seq<Line>)
    requires StartsEntry(d, ls) && ParseEntry(rd, ls, d) == Ok((k, v, rest))
    ensures ParseEntries(rd, ls, d, acc) == ParseEntries(rd, rest, d, acc[k := v])
  {
  }

  // A key that can be used as one.
  predicate UsableKey(rd: Reader, key: string)
  {
    KeyText(key) && rd(key).Some? && KeyOf(rd(key).value).Some?
  }

  lemma {:induction false} EntryIs(rd: Reader, key: string, text: string, d: nat, more: seq<Line>, v: Value, rest: seq<Line>)
    requires UsableKey(rd, key) && Trimmed(text)
    requires ParseEntryValue(rd, [Line(d, EntryLine(key, text))] + more, d, text) == Ok((v, rest))
    ensures ParseEntry(rd, [Line(d, EntryLine(key, text))] + more, d) == Ok((KeyOf(rd(key).value).value, v, rest))
  {
    SplitKeyIs(key, text);
  }

  lemma {:induction false} ValueScalar(rd: Reader, line: Line, text: string, d: nat, more: seq<Line>)
    requires OneLine(text) && rd(text).Some?
    ensures ParseEntryValue(rd, [line] + more, d, text) == Ok((rd(text).value, more))
  {
    StripTrimmed(text);
    assert ([line] + more)[1..] == more;
  }

  lemma {:induction false} ValueNull(rd: Reader, line: Line, d: nat, more: seq<Line>)
    requires AfterItems(d, more)
    ensures ParseEntryValue(rd, [line] + more, d, "") == Ok((Null, more))
  {
    assert ([line] + more)[1..] == more;
  }

  lemma {:induction false} ValueBlock(rd: Reader, line: Line, d: nat, more: seq<Line>)
    requires more != [] && (more[0].indent > d || (more[0].indent == d && IsDash(more[0].content)))
    ensures ParseEntryValue(rd, [line] + more, d, "") == Parse(rd, more, more[0].indent)
  {
    assert ([line] + more)[1..] == more;
  }
}
