// Whole documents: from text to lines, and the two encoders' layouts read as
// the same value. scripts/rust-port/device_list_differential.py
module YamlDocuments {
  import opened Wrappers
  import opened Text
  import opened YamlScalars
  import opened BlockYaml
  import opened YamlLayouts

  // ---------------------------------------------------------------- text to lines

  function LeadingSpaces(l: string): nat
  {
    if l != "" && l[0] == ' ' then 1 + LeadingSpaces(l[1..]) else 0
  }

  // The lines that are neither blank nor a comment.
  function Kept(ls: seq<string>): seq<Line>
  {
    if ls == [] then []
    else if Strip(ls[0]) == "" || Strip(ls[0])[0] == '#' then Kept(ls[1..])
    else [Line(LeadingSpaces(ls[0]), Strip(ls[0]))] + Kept(ls[1..])
  }

  function Lines(text: string): seq<Line>
  {
    Kept(SplitAt(text, '\n'))
  }

  // The value of a document.
  function MiniYaml(rd: Reader, text: string): Result<Value>
  {
    MiniYamlLines(rd, Lines(text))
  }

  function MiniYamlLines(rd: Reader, ls: seq<Line>): Result<Value>
  {
    if ls == [] then Err(AssertionError)
    else if |ls| == 1 && SplitKey(ls[0].content).None? && !IsDash(ls[0].content) then
      match rd(ls[0].content)
      case None => Err(ValueError)
      case Some(v) => Ok(v)
    else
      match Parse(rd, ls, ls[0].indent)
      case Err(e) => Err(e)
      case Ok((v, rest)) => if rest == [] then Ok(v) else Err(AssertionError)
  }

  // ---------------------------------------------------------------- lines to text

  function Pad(n: nat): string
  {
    if n == 0 then "" else " " + Pad(n - 1)
  }

  function Render(ls: seq<Line>): string
  {
    if ls == [] then "" else Pad(ls[0].indent) + ls[0].content + "\n" + Render(ls[1..])
  }

  // A line that survives being written and read.
  predicate Printable(l: Line)
  {
    OneLine(l.content) && l.content[0] != '#'
  }

  lemma {:induction false} PadIsBlank(n: nat)
    ensures Blank(Pad(n)) && '\n' !in Pad(n)
  {
    if n > 0 {
      PadIsBlank(n - 1);
    }
  }

  lemma {:induction false} LeadingSpacesIs(n: nat, content: string)
    requires content != "" && content[0] != ' '
    ensures LeadingSpaces(Pad(n) + content) == n
  {
    if n == 0 {
      assert Pad(0) + content == content;
    } else {
      assert (Pad(n) + content)[1..] == Pad(n - 1) + content;
      LeadingSpacesIs(n - 1, content);
    }
  }

  lemma {:induction false} LineIs(l: Line)
    requires Printable(l)
    ensures var s := Pad(l.indent) + l.content;
            Strip(s) == l.content && LeadingSpaces(s) == l.indent && '\n' !in s
  {
    PadIsBlank(l.indent);
    StripPadded(Pad(l.indent), l.content, "");
    assert Pad(l.indent) + l.content + "" == Pad(l.indent) + l.content;
    LeadingSpacesIs(l.indent, l.content);
  }

  lemma {:induction false} KeptStep(s: string, others: seq<string>)
    requires Strip(s) != "" && Strip(s)[0] != '#'
    ensures Kept([s] + others) == [Line(LeadingSpaces(s), Strip(s))] + Kept(others)
  {
    assert ([s] + others)[1..] == others;
  }

  lemma {:induction false} LinesStep(l: Line, rest: string)
    requires Printable(l)
    ensures Lines(Pad(l.indent) + l.content + "\n" + rest) == [l] + Lines(rest)
  {
    var s := Pad(l.indent) + l.content;
    LineIs(l);
    SplitAtSep(s, '\n', rest);
    KeptStep(s, SplitAt(rest, '\n'));
  }

  // Written lines are read back as they were.
  lemma {:induction false} LinesRoundTrip(ls: seq<Line>)
    requires AllPrintable(ls)
    ensures Lines(Render(ls)) == ls
    decreases |ls|
  {
    if ls == [] {
      assert Kept([""]) == Kept([]);
    } else {
      LinesStep(ls[0], Render(ls[1..]));
      LinesRoundTrip(ls[1..]);
    }
  }

  // ---------------------------------------------------------------- printed layouts are printable

  predicate AllPrintable(ls: seq<Line>)
  {
    forall i :: 0 <= i < |ls| ==> Printable(ls[i])
  }

  lemma {:induction false} DashPrintable(text: string, d: nat)
    requires OneLine(text)
    ensures Printable(Line(d, DashLine(text)))
  {
    DashLineFits(text);
  }

  lemma {:induction false} PrintsPrintable(rd: Reader, doc: Doc, d: nat)
    requires Sound(rd, doc)
    ensures AllPrintable(Print(doc, d))
    decreases doc, 1
  {
    match doc
    case Leaf(_) =>
    case Empty =>
    case Items(items) => ItemsPrintable(rd, items, d);
    case Fields(fields) => FieldsPrintable(rd, fields, d);
  }

  lemma {:induction false} ItemsPrintable(rd: Reader, items: seq<Item>, d: nat)
    requires forall i :: 0 <= i < |items| ==> SoundItem(rd, items[i])
    ensures AllPrintable(PrintItems(items, d))
    decreases items, 0
  {
    if items != [] {
      ItemPrintable(rd, items[0], d);
      ItemsPrintable(rd, items[1..], d);
    }
  }

  lemma {:induction false} ItemPrintable(rd: Reader, item: Item, d: nat)
    requires SoundItem(rd, item)
    ensures AllPrintable(PrintItem(item, d))
    decreases item, 0
  {
    assert Sound(rd, item.doc);
    PrintsPrintable(rd, item.doc, d + 2);
    PrintsPrintable(rd, item.doc, d + item.step);
    match item.doc
    case Leaf(text) => DashPrintable(text, d);
    case Empty =>
    case _ =>
      if Print(item.doc, d + 2) != [] {
        DashPrintable(Print(item.doc, d + 2)[0].content, d);
      }
  }

  lemma {:induction false} FieldsPrintable(rd: Reader, fields: seq<Field>, d: nat)
    requires forall i :: 0 <= i < |fields| ==> SoundField(rd, fields[i])
    ensures AllPrintable(PrintFields(fields, d))
    decreases fields, 0
  {
    if fields != [] {
      FieldPrintable(rd, fields[0], d);
      FieldsPrintable(rd, fields[1..], d);
    }
  }

  lemma {:induction false} FieldPrintable(rd: Reader, f: Field, d: nat)
    requires SoundField(rd, f)
    ensures AllPrintable(PrintField(f, d))
    decreases f, 0
  {
    EntryLineIs(rd, f);
    PrintsPrintable(rd, f.doc, d + f.step);
  }

  // ---------------------------------------------------------------- main results

  // A printed block is handed to the parser at its own indent.
  lemma {:induction false} TextIsParsed(rd: Reader, doc: Doc, d: nat)
    requires Sound(rd, doc) && IsBlock(doc)
    ensures Print(doc, d) != []
    ensures MiniYaml(rd, Render(Print(doc, d))) ==
            match Parse(rd, Print(doc, d), d)
            case Err(e) => Err(e)
            case Ok((v, rest)) => if rest == [] then Ok(v) else Err(AssertionError)
  {
    PrintsPrintable(rd, doc, d);
    LinesRoundTrip(Print(doc, d));
    HeadIs(rd, doc, d);
    if doc.Fields? {
      EntryLineIs(rd, doc.fields[0]);
    }
  }

  // Whatever layout an encoder chooses, the reader gives the value back and
  // consumes every line.
  lemma {:induction false} LayoutReadsBack(rd: Reader, doc: Doc, d: nat)
    requires Wf(rd, doc) && IsBlock(doc)
    ensures MiniYaml(rd, Render(Print(doc, d))) == Ok(Meaning(rd, doc))
  {
    TextIsParsed(rd, doc, d);
    ReadsBlock(rd, doc, d, []);
    assert Print(doc, d) + [] == Print(doc, d);
  }

  // A document that is one scalar.
  lemma {:induction false} ScalarReadsBack(rd: Reader, text: string, d: nat)
    requires OneLine(text) && text[0] != '#' && SplitKey(text).None? && !IsDash(text) && rd(text).Some?
    ensures MiniYaml(rd, Render([Line(d, text)])) == Ok(rd(text).value)
  {
    LinesRoundTrip([Line(d, text)]);
  }

  // Two documents with the same value are read alike, however each is laid out
  // and quoted.
  lemma {:induction false} StyleDoesNotMatter(rd: Reader, go: Doc, rust: Doc, d: nat, e: nat)
    requires Wf(rd, go) && IsBlock(go) && Wf(rd, rust) && IsBlock(rust)
    ensures MiniYaml(rd, Render(Print(go, d))) == MiniYaml(rd, Render(Print(rust, e)))
        <==> Meaning(rd, go) == Meaning(rd, rust)
  {
    LayoutReadsBack(rd, go, d);
    LayoutReadsBack(rd, rust, e);
  }

  // A document laid out anew: sequences seqStep columns under their key (0 is
  // flush with it), mappings mapStep columns under theirs.
  function Restyle(doc: Doc, seqStep: nat, mapStep: nat): Doc
    decreases doc
  {
    match doc
    case Leaf(_) => doc
    case Empty => doc
    case Items(items) => Items(RestyleItems(items, seqStep, mapStep))
    case Fields(fields) => Fields(RestyleFields(fields, seqStep, mapStep))
  }

  function RestyleItems(items: seq<Item>, seqStep: nat, mapStep: nat): (r: seq<Item>)
    ensures |r| == |items|
    decreases items
  {
    if items == [] then []
    else [RestyleItem(items[0], seqStep, mapStep)] + RestyleItems(items[1..], seqStep, mapStep)
  }

  function RestyleItem(item: Item, seqStep: nat, mapStep: nat): Item
    decreases item
  {
    Item(if item.step == 0 then 0 else mapStep, Restyle(item.doc, seqStep, mapStep))
  }

  function RestyleFields(fields: seq<Field>, seqStep: nat, mapStep: nat): (r: seq<Field>)
    ensures |r| == |fields|
    ensures fields != [] ==> r[0].key == fields[0].key
    decreases fields
  {
    if fields == [] then []
    else [RestyleField(fields[0], seqStep, mapStep)] + RestyleFields(fields[1..], seqStep, mapStep)
  }

  function RestyleField(f: Field, seqStep: nat, mapStep: nat): (r: Field)
    ensures r.key == f.key
    decreases f
  {
    Field(f.key, if f.doc.Items? then seqStep else mapStep, Restyle(f.doc, seqStep, mapStep))
  }

  // The first line of a block stays as it is.
  lemma {:induction false} RestyleHead(doc: Doc, seqStep: nat, mapStep: nat)
    requires mapStep > 0
    ensures HeadText(Restyle(doc, seqStep, mapStep)) == HeadText(doc)
    decreases doc
  {
    match doc
    case Items(items) =>
      if items != [] {
        var item, r := items[0], RestyleItem(items[0], seqStep, mapStep);
        RestyleHead(item.doc, seqStep, mapStep);
        assert r.doc == Restyle(item.doc, seqStep, mapStep) && (r.step == 0 <==> item.step == 0);
        assert ItemHeadText(r) == ItemHeadText(item);
        assert RestyleItems(items, seqStep, mapStep)[0] == r;
      }
    case Fields(fields) =>
      if fields != [] {
        var f := fields[0];
        assert RestyleFields(fields, seqStep, mapStep)[0] == RestyleField(f, seqStep, mapStep);
        assert ValueText(Restyle(f.doc, seqStep, mapStep)) == ValueText(f.doc);
      }
    case _ =>
  }

  lemma {:induction false} RestyleKeeps(rd: Reader, doc: Doc, seqStep: nat, mapStep: nat)
    requires Wf(rd, doc) && mapStep > 0
    ensures Wf(rd, Restyle(doc, seqStep, mapStep))
    ensures Meaning(rd, Restyle(doc, seqStep, mapStep)) == Meaning(rd, doc)
    decreases doc, 1
  {
    match doc
    case Leaf(_) =>
    case Empty =>
    case Items(items) =>
      assert forall i :: 0 <= i < |items| ==> SoundItem(rd, items[i]) && RecognisedItem(items[i]);
      RestyleItemsKeeps(rd, items, seqStep, mapStep);
      WfOfItems(rd, RestyleItems(items, seqStep, mapStep));
    case Fields(fields) =>
      assert forall i :: 0 <= i < |fields| ==> SoundField(rd, fields[i]) && RecognisedField(fields[i]);
      RestyleFieldsKeeps(rd, fields, seqStep, mapStep, map[]);
      WfOfFields(rd, RestyleFields(fields, seqStep, mapStep));
  }

  lemma {:induction false} WfOfItems(rd: Reader, items: seq<Item>)
    requires items != [] && forall i :: 0 <= i < |items| ==> WfItem(rd, items[i])
    ensures Wf(rd, Items(items))
  {
  }

  lemma {:induction false} WfOfFields(rd: Reader, fields: seq<Field>)
    requires fields != [] && forall i :: 0 <= i < |fields| ==> WfField(rd, fields[i])
    ensures Wf(rd, Fields(fields))
  {
  }

  lemma {:induction false} RestyleItemsKeeps(rd: Reader, items: seq<Item>, seqStep: nat, mapStep: nat)
    requires mapStep > 0 && forall i :: 0 <= i < |items| ==> WfItem(rd, items[i])
    ensures var r := RestyleItems(items, seqStep, mapStep);
            (forall i :: 0 <= i < |r| ==> WfItem(rd, r[i])) && MeaningItems(rd, r) == MeaningItems(rd, items)
    decreases items, 0
  {
    if items != [] {
      RestyleItemKeeps(rd, items[0], seqStep, mapStep);
      RestyleItemsKeeps(rd, items[1..], seqStep, mapStep);
      var r := RestyleItems(items, seqStep, mapStep);
      assert r[1..] == RestyleItems(items[1..], seqStep, mapStep);
    }
  }

  lemma {:induction false} RestyleItemKeeps(rd: Reader, item: Item, seqStep: nat, mapStep: nat)
    requires mapStep > 0 && WfItem(rd, item)
    ensures WfItem(rd, RestyleItem(item, seqStep, mapStep))
    ensures MeaningItem(rd, RestyleItem(item, seqStep, mapStep)) == MeaningItem(rd, item)
    decreases item, 0
  {
    var r := RestyleItem(item, seqStep, mapStep);
    assert Wf(rd, item.doc);
    RestyleKeeps(rd, item.doc, seqStep, mapStep);
    RestyleHead(item.doc, seqStep, mapStep);
    assert Recognisable(item) && r.doc == Restyle(item.doc, seqStep, mapStep);
    assert Recognisable(r);
  }

  lemma {:induction false} RestyleFieldsKeeps(rd: Reader, fields: seq<Field>, seqStep: nat, mapStep: nat, acc: map<Key, Value>)
    requires mapStep > 0 && forall i :: 0 <= i < |fields| ==> WfField(rd, fields[i])
    ensures var r := RestyleFields(fields, seqStep, mapStep);
            (forall i :: 0 <= i < |r| ==> WfField(rd, r[i]))
            && MeaningFields(rd, r, acc) == MeaningFields(rd, fields, acc)
    decreases fields, 0
  {
    if fields != [] {
      var f := fields[0];
      RestyleFieldKeeps(rd, f, seqStep, mapStep);
      RestyleFieldsKeeps(rd, fields[1..], seqStep, mapStep, acc[KeyOr(rd, f.key) := MeaningField(rd, f)]);
      var r := RestyleFields(fields, seqStep, mapStep);
      assert r[1..] == RestyleFields(fields[1..], seqStep, mapStep);
    }
  }

  lemma {:induction false} RestyleFieldKeeps(rd: Reader, f: Field, seqStep: nat, mapStep: nat)
    requires mapStep > 0 && WfField(rd, f)
    ensures WfField(rd, RestyleField(f, seqStep, mapStep))
    ensures MeaningField(rd, RestyleField(f, seqStep, mapStep)) == MeaningField(rd, f)
    decreases f, 0
  {
    assert Wf(rd, f.doc);
    RestyleKeeps(rd, f.doc, seqStep, mapStep);
  }

  // The layout of yaml.v3 (sequences indented under their key) and the layout
  // of serde_yaml_ng (sequences flush with it) of one document are both read
  // back as its value.
  lemma {:induction false} EncodersAgree(rd: Reader, doc: Doc)
    requires Wf(rd, doc) && IsBlock(doc)
    ensures MiniYaml(rd, Render(Print(Restyle(doc, 4, 4), 0))) == Ok(Meaning(rd, doc))
    ensures MiniYaml(rd, Render(Print(Restyle(doc, 0, 2), 0))) == Ok(Meaning(rd, doc))
  {
    RestyleKeeps(rd, doc, 4, 4);
    RestyleKeeps(rd, doc, 0, 2);
    LayoutReadsBack(rd, Restyle(doc, 4, 4), 0);
    LayoutReadsBack(rd, Restyle(doc, 0, 2), 0);
  }

  // ---------------------------------------------------------------- the script's reader

  // The reader mini_yaml uses.
  function ScalarReader(cd: Codec): Reader
  {
    s => Scalar(cd, s)
  }
}
