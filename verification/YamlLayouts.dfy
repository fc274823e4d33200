// Block layouts of a document and the proof that `mini_yaml` reads the value
// of a document back from every one of them.
// scripts/rust-port/device_list_differential.py
module YamlLayouts {
  import opened Wrappers
  import opened Trees
  import opened YamlScalars
  import opened BlockYaml

  // A document together with every choice an encoder makes: the text of each
  // scalar, how far each nested block is indented, and whether an item starts
  // on its dash line.
  datatype Doc =
    | Leaf(text: string)             // a scalar, `[]` or `{}`
    | Empty                          // null, written as nothing at all
    | Items(items: seq<Item>)
    | Fields(fields: seq<Field>)

  // step 0 puts a block on the dash line; otherwise it starts on the next line,
  // indented by step.
  datatype Item = Item(step: nat, doc: Doc)

  // A sequence may be flush with its key (step 0); a mapping may not.
  datatype Field = Field(key: string, step: nat, doc: Doc)

  // ---------------------------------------------------------------- printing

  function Print(doc: Doc, d: nat): seq<Line>
    decreases doc
  {
    match doc
    case Leaf(_) => []
    case Empty => []
    case Items(items) => PrintItems(items, d)
    case Fields(fields) => PrintFields(fields, d)
  }

  function PrintItems(items: seq<Item>, d: nat): seq<Line>
    decreases items
  {
    if items == [] then [] else PrintItem(items[0], d) + PrintItems(items[1..], d)
  }

  function PrintItem(item: Item, d: nat): seq<Line>
    decreases item
  {
    match item.doc
    case Leaf(text) => [Line(d, DashLine(text))]
    case Empty => [Line(d, "-")]
    case _ => if item.step == 0 then OnDashLine(Print(item.doc, d + 2), d)
              else [Line(d, "-")] + Print(item.doc, d + item.step)
  }

  // A block whose first line is moved up to the dash line.
  function OnDashLine(block: seq<Line>, d: nat): seq<Line>
  {
    if block == [] then [] else [Line(d, DashLine(block[0].content))] + block[1..]
  }

  function PrintFields(fields: seq<Field>, d: nat): seq<Line>
    decreases fields
  {
    if fields == [] then [] else PrintField(fields[0], d) + PrintFields(fields[1..], d)
  }

  function PrintField(f: Field, d: nat): seq<Line>
    decreases f
  {
    [Line(d, EntryLine(f.key, ValueText(f.doc)))] + Print(f.doc, d + f.step)
  }

  function ValueText(doc: Doc): string
  {
    if doc.Leaf? then doc.text else ""
  }

  // ---------------------------------------------------------------- meaning

  function ScalarOr(rd: Reader, text: string): Value
  {
    match rd(text) case Some(v) => v case None => Null
  }

  function KeyOr(rd: Reader, text: string): Key
  {
    match KeyOf(ScalarOr(rd, text)) case Some(k) => k case None => NullKey
  }

  function Meaning(rd: Reader, doc: Doc): Value
    decreases doc
  {
    match doc
    case Leaf(text) => ScalarOr(rd, text)
    case Empty => Null
    case Items(items) => List(MeaningItems(rd, items))
    case Fields(fields) => Dict(MeaningFields(rd, fields, map[]))
  }

  function MeaningItems(rd: Reader, items: seq<Item>): seq<Value>
    decreases items
  {
    if items == [] then [] else [MeaningItem(rd, items[0])] + MeaningItems(rd, items[1..])
  }

  function MeaningItem(rd: Reader, item: Item): Value
    decreases item
  {
    Meaning(rd, item.doc)
  }

  function MeaningField(rd: Reader, f: Field): Value
    decreases f
  {
    Meaning(rd, f.doc)
  }

  // A repeated key keeps its last value.
  function MeaningFields(rd: Reader, fields: seq<Field>, entries: map<Key, Value>): map<Key, Value>
    decreases fields
  {
    if fields == [] then entries
    else MeaningFields(rd, fields[1..], entries[KeyOr(rd, fields[0].key) := MeaningField(rd, fields[0])])
  }

  // ---------------------------------------------------------------- well-formed layouts

  // A document whose texts and keys are read as they stand.
  predicate Sound(rd: Reader, doc: Doc)
    decreases doc
  {
    match doc
    case Leaf(text) => OneLine(text) && rd(text).Some?
    case Empty => true
    case Items(items) => items != [] && forall i :: 0 <= i < |items| ==> SoundItem(rd, items[i])
    case Fields(fields) => fields != [] && forall i :: 0 <= i < |fields| ==> SoundField(rd, fields[i])
  }

  predicate SoundItem(rd: Reader, item: Item)
    decreases item
  {
    Sound(rd, item.doc)
  }

  predicate WfKey(rd: Reader, key: string)
  {
    OneLine(key) && UsableKey(rd, key) && !IsDash(key) && key[0] != '#'
  }

  predicate SoundField(rd: Reader, f: Field)
    decreases f
  {
    WfKey(rd, f.key) && Sound(rd, f.doc) && (f.doc.Fields? ==> f.step > 0)
  }

  // The text of the first line of a block.
  function HeadText(doc: Doc): string
    decreases doc
  {
    match doc
    case Items(items) => if items == [] then "" else ItemHeadText(items[0])
    case Fields(fields) => if fields == [] then "" else EntryLine(fields[0].key, ValueText(fields[0].doc))
    case _ => ""
  }

  function ItemHeadText(item: Item): string
    decreases item
  {
    match item.doc
    case Leaf(text) => DashLine(text)
    case Empty => "-"
    case _ => if item.step == 0 then DashLine(HeadText(item.doc)) else "-"
  }

  // What an item must look like on its dash line: a scalar is quoted or does
  // not look like an entry; a mapping does not start with a quoted key; a
  // sequence does look like an entry.
  predicate Recognisable(item: Item)
  {
    match item.doc
    case Leaf(text) => text == "" || IsQuote(text[0]) || SplitKey(text).None?
    case Empty => true
    case Items(_) => item.step > 0 || SplitKey(HeadText(item.doc)).Some?
    case Fields(fields) =>
      item.step > 0 || fields == [] || fields[0].key == "" || !IsQuote(fields[0].key[0])
  }

  // Every item in the document is.
  predicate Recognised(doc: Doc)
    decreases doc
  {
    match doc
    case Items(items) => forall i :: 0 <= i < |items| ==> RecognisedItem(items[i])
    case Fields(fields) => forall i :: 0 <= i < |fields| ==> RecognisedField(fields[i])
    case _ => true
  }

  predicate RecognisedItem(item: Item)
    decreases item
  {
    Recognisable(item) && Recognised(item.doc)
  }

  predicate RecognisedField(f: Field)
    decreases f
  {
    Recognised(f.doc)
  }

  predicate Wf(rd: Reader, doc: Doc) { Sound(rd, doc) && Recognised(doc) }

  predicate WfItem(rd: Reader, item: Item) { SoundItem(rd, item) && RecognisedItem(item) }

  predicate WfField(rd: Reader, f: Field) { SoundField(rd, f) && RecognisedField(f) }

  // ---------------------------------------------------------------- reading a layout

  lemma {:induction false} EntryLineIsNoDash(key: string, value: string)
    requires key != "" && !IsDash(key)
    ensures !IsDash(EntryLine(key, value))
  {
    assert EntryLine(key, value)[|key|] == ':';
  }

  // The line of an entry fits on one line and is read as an entry.
  lemma {:induction false} EntryLineIs(rd: Reader, f: Field)
    requires SoundField(rd, f)
    ensures var s := EntryLine(f.key, ValueText(f.doc));
            OneLine(s) && s[0] == f.key[0] && SplitKey(s).Some? && !IsDash(s)
  {
    var value := ValueText(f.doc);
    SplitKeyIs(f.key, value);
    EntryLineIsNoDash(f.key, value);
    EntryLineFits(f.key, value);
  }

  lemma {:induction false} EntryLineFits(key: string, value: string)
    requires OneLine(key) && (value == "" || OneLine(value))
    ensures OneLine(EntryLine(key, value)) && EntryLine(key, value)[0] == key[0]
  {
    var s := EntryLine(key, value);
    assert s[|s| - 1] == if value == "" then ':' else value[|value| - 1];
    assert '\n' !in Entry(value);
  }

  lemma {:induction false} FieldHead(rd: Reader, f: Field, d: nat)
    requires SoundField(rd, f)
    ensures StartsEntry(d, PrintField(f, d))
  {
    EntryLineIs(rd, f);
  }

  lemma {:induction false} FieldsHead(rd: Reader, fields: seq<Field>, d: nat)
    requires fields != [] && SoundField(rd, fields[0])
    ensures StartsEntry(d, PrintFields(fields, d))
    ensures PrintFields(fields, d)[0] == Line(d, EntryLine(fields[0].key, ValueText(fields[0].doc)))
  {
    FieldHead(rd, fields[0], d);
  }

  predicate IsBlock(doc: Doc) { doc.Items? || doc.Fields? }

  // A block starts with its first line at its own indent.
  lemma {:induction false} HeadIs(rd: Reader, doc: Doc, d: nat)
    requires Sound(rd, doc) && IsBlock(doc)
    ensures Print(doc, d) != [] && Print(doc, d)[0] == Line(d, HeadText(doc)) && OneLine(HeadText(doc))
    ensures IsDash(HeadText(doc)) <==> doc.Items?
    decreases doc
  {
    match doc
    case Items(items) => ItemHeadIs(rd, items[0], d);
    case Fields(fields) =>
      FieldsHead(rd, fields, d);
      EntryLineIs(rd, fields[0]);
  }

  lemma {:induction false} ItemHeadIs(rd: Reader, item: Item, d: nat)
    requires SoundItem(rd, item)
    ensures PrintItem(item, d) != [] && PrintItem(item, d)[0] == Line(d, ItemHeadText(item))
    ensures OneLine(ItemHeadText(item)) && IsDash(ItemHeadText(item)) && ItemHeadText(item)[0] == '-'
    decreases item
  {
    match item.doc
    case Leaf(text) => DashLineFits(text);
    case Empty =>
    case _ =>
      if item.step == 0 {
        HeadIs(rd, item.doc, d + 2);
        DashLineFits(HeadText(item.doc));
      }
  }

  lemma {:induction false} DashLineFits(text: string)
    requires OneLine(text)
    ensures OneLine(DashLine(text)) && IsDash(DashLine(text))
  {
    var s := DashLine(text);
    assert s[|s| - 1] == text[|text| - 1];
  }

  lemma {:induction false} ItemHead(rd: Reader, item: Item, d: nat)
    requires SoundItem(rd, item)
    ensures StartsItem(d, PrintItem(item, d))
  {
    ItemHeadIs(rd, item, d);
  }

  lemma {:induction false} ItemsHead(rd: Reader, items: seq<Item>, d: nat)
    requires items != [] && SoundItem(rd, items[0])
    ensures StartsItem(d, PrintItems(items, d))
  {
    ItemHead(rd, items[0], d);
  }

  // A block starts at its own indent: a sequence with a dash, a mapping without.
  lemma {:induction false} BlockHead(rd: Reader, doc: Doc, d: nat)
    requires Sound(rd, doc) && IsBlock(doc)
    ensures if doc.Items? then StartsItem(d, Print(doc, d)) else StartsEntry(d, Print(doc, d))
  {
    HeadIs(rd, doc, d);
  }

  // What may follow a block at indent d.
  predicate After(doc: Doc, d: nat, tail: seq<Line>)
  {
    if doc.Items? then AfterItems(d, tail) else AfterFields(d, tail)
  }

  // Parsing the printed block gives its meaning and stops where the block ends.
  ghost predicate Reads(rd: Reader, doc: Doc, d: nat, tail: seq<Line>)
  {
    Print(doc, d) != [] && Parse(rd, Print(doc, d) + tail, d) == Ok((Meaning(rd, doc), tail))
  }

  lemma {:induction false} ReadsBlock(rd: Reader, doc: Doc, d: nat, tail: seq<Line>)
    requires Wf(rd, doc) && IsBlock(doc) && After(doc, d, tail)
    ensures Reads(rd, doc, d, tail)
    decreases doc, 1
  {
    match doc
    case Items(items) => ReadsSequence(rd, items, d, tail);
    case Fields(fields) => ReadsMapping(rd, fields, d, tail);
  }

  lemma {:induction false} ReadsSequence(rd: Reader, items: seq<Item>, d: nat, tail: seq<Line>)
    requires items != [] && AfterItems(d, tail)
    requires forall i :: 0 <= i < |items| ==> WfItem(rd, items[i])
    ensures PrintItems(items, d) != []
    ensures Parse(rd, PrintItems(items, d) + tail, d) == Ok((List(MeaningItems(rd, items)), tail))
    decreases items, 1
  {
    var ls := PrintItems(items, d) + tail;
    ItemsHead(rd, items, d);
    calc {
      Parse(rd, ls, d);
      { ParseSequence(rd, ls, d); }
      ParseItems(rd, ls, d, []);
      { ReadsItems(rd, items, d, [], tail); }
      Ok((List([] + MeaningItems(rd, items)), tail));
      { assert [] + MeaningItems(rd, items) == MeaningItems(rd, items); }
      Ok((List(MeaningItems(rd, items)), tail));
    }
  }

  lemma {:induction false} ReadsMapping(rd: Reader, fields: seq<Field>, d: nat, tail: seq<Line>)
    requires fields != [] && AfterFields(d, tail)
    requires forall i :: 0 <= i < |fields| ==> WfField(rd, fields[i])
    ensures PrintFields(fields, d) != []
    ensures Parse(rd, PrintFields(fields, d) + tail, d) == Ok((Dict(MeaningFields(rd, fields, map[])), tail))
    decreases fields, 1
  {
    var ls := PrintFields(fields, d) + tail;
    FieldsHead(rd, fields, d);
    calc {
      Parse(rd, ls, d);
      { ParseMapping(rd, ls, d); }
      ParseEntries(rd, ls, d, map[]);
      { ReadsFields(rd, fields, d, map[], tail); }
      Ok((Dict(MeaningFields(rd, fields, map[])), tail));
    }
  }

  lemma {:induction false} PrintItemsSplit(items: seq<Item>, d: nat, tail: seq<Line>)
    requires items != []
    ensures PrintItems(items, d) + tail == PrintItem(items[0], d) + (PrintItems(items[1..], d) + tail)
  {
  }

  // The lines after an item: the next item or what follows the sequence.
  lemma {:induction false} NextItem(rd: Reader, items: seq<Item>, d: nat, tail: seq<Line>)
    requires forall i :: 0 <= i < |items| ==> WfItem(rd, items[i])
    requires AfterItems(d, tail)
    ensures var more := PrintItems(items, d) + tail; more == [] || more[0].indent <= d
  {
    if items != [] {
      ItemsHead(rd, items, d);
    }
  }

  lemma {:induction false} ReadsItems(rd: Reader, items: seq<Item>, d: nat, acc: seq<Value>, tail: seq<Line>)
    requires forall i :: 0 <= i < |items| ==> WfItem(rd, items[i])
    requires AfterItems(d, tail)
    ensures ParseItems(rd, PrintItems(items, d) + tail, d, acc) == Ok((List(acc + MeaningItems(rd, items)), tail))
    decreases items, 0
  {
    if items == [] {
      assert PrintItems(items, d) + tail == tail;
      assert acc + MeaningItems(rd, items) == acc;
    } else {
      var item, others := items[0], items[1..];
      var more := PrintItems(others, d) + tail;
      var v := MeaningItem(rd, item);
      calc {
        ParseItems(rd, PrintItems(items, d) + tail, d, acc);
        { PrintItemsSplit(items, d, tail); }
        ParseItems(rd, PrintItem(item, d) + more, d, acc);
        { NextItem(rd, others, d, tail);
          ReadsItem(rd, item, d, more);
          ItemHead(rd, item, d);
          ItemsStep(rd, PrintItem(item, d) + more, d, acc, v, more); }
        ParseItems(rd, more, d, acc + [v]);
        { ReadsItems(rd, others, d, acc + [v], tail); }
        Ok((List(acc + [v] + MeaningItems(rd, others)), tail));
        { assert acc + [v] + MeaningItems(rd, others) == acc + MeaningItems(rd, items); }
        Ok((List(acc + MeaningItems(rd, items)), tail));
      }
    }
  }

  // Parsing a printed item gives its meaning and the lines after it.
  ghost predicate ItemReads(rd: Reader, item: Item, d: nat, more: seq<Line>)
  {
    && PrintItem(item, d) != [] && IsDash(PrintItem(item, d)[0].content)
    && ParseItem(rd, PrintItem(item, d) + more, d) == Ok((MeaningItem(rd, item), more))
  }

  lemma {:induction false} ReadsItem(rd: Reader, item: Item, d: nat, more: seq<Line>)
    requires WfItem(rd, item) && (more == [] || more[0].indent <= d)
    ensures ItemReads(rd, item, d, more)
    decreases item, 1
  {
    ItemHead(rd, item, d);
    assert Sound(rd, item.doc);
    match item.doc
    case Leaf(text) => ItemScalar(rd, text, d, more);
    case Empty => ItemNull(rd, d, more);
    case _ =>
      if item.step == 0 {
        ReadsCompact(rd, item, d, more);
      } else {
        ReadsUnder(rd, item, d, more);
      }
  }

  lemma {:induction false} ReadsUnder(rd: Reader, item: Item, d: nat, more: seq<Line>)
    requires WfItem(rd, item) && IsBlock(item.doc) && item.step > 0 && (more == [] || more[0].indent <= d)
    ensures ItemReads(rd, item, d, more)
    decreases item, 0
  {
    var inner := d + item.step;
    var block := Print(item.doc, inner);
    BlockHead(rd, item.doc, inner);
    ReadsBlock(rd, item.doc, inner, more);
    ItemBlock(rd, d, block + more);
    assert PrintItem(item, d) + more == [Line(d, "-")] + (block + more);
  }

  // A block on the dash line is the block with its first line moved up.
  lemma {:induction false} MovedUp(block: seq<Line>, text: string, d: nat, more: seq<Line>)
    requires block != [] && block[0] == Line(d + 2, text)
    ensures block + more == [Line(d + 2, text)] + (block[1..] + more)
    ensures OnDashLine(block, d) + more == [Line(d, DashLine(text))] + (block[1..] + more)
  {
  }

  // Parsing a block that was moved up gives what the block itself gives.
  lemma {:induction false} ParsesMovedUp(rd: Reader, block: seq<Line>, text: string, d: nat, more: seq<Line>)
    requires block != [] && block[0] == Line(d + 2, text)
    requires OneLine(text) && !IsQuote(text[0]) && SplitKey(text).Some?
    ensures OnDashLine(block, d) != [] && IsDash(OnDashLine(block, d)[0].content)
    ensures ParseItem(rd, OnDashLine(block, d) + more, d) == Parse(rd, block + more, d + 2)
  {
    MovedUp(block, text, d, more);
    ItemCompact(rd, text, d, block[1..] + more);
  }

  // A block that reads well is read equally well from its dash line.
  lemma {:induction false} CompactIsItem(rd: Reader, item: Item, text: string, d: nat, more: seq<Line>)
    requires IsBlock(item.doc) && item.step == 0 && Reads(rd, item.doc, d + 2, more)
    requires OneLine(text) && !IsQuote(text[0]) && SplitKey(text).Some?
    requires Print(item.doc, d + 2)[0] == Line(d + 2, text)
    ensures ItemReads(rd, item, d, more)
  {
    ParsesMovedUp(rd, Print(item.doc, d + 2), text, d, more);
    assert PrintItem(item, d) == OnDashLine(Print(item.doc, d + 2), d);
  }

  // A block on the dash line: the parser rewrites the line and starts over.
  lemma {:induction false} ReadsCompact(rd: Reader, item: Item, d: nat, more: seq<Line>)
    requires WfItem(rd, item) && IsBlock(item.doc) && item.step == 0 && (more == [] || more[0].indent <= d)
    ensures ItemReads(rd, item, d, more)
    decreases item, 0
  {
    var text := HeadText(item.doc);
    HeadIs(rd, item.doc, d + 2);
    if item.doc.Fields? {
      EntryLineIs(rd, item.doc.fields[0]);
    }
    ReadsBlock(rd, item.doc, d + 2, more);
    CompactIsItem(rd, item, text, d, more);
  }

  lemma {:induction false} PrintFieldsSplit(fields: seq<Field>, d: nat, tail: seq<Line>)
    requires fields != []
    ensures PrintFields(fields, d) + tail == PrintField(fields[0], d) + (PrintFields(fields[1..], d) + tail)
  {
  }

  // The lines after an entry: the next entry or what follows the mapping.
  lemma {:induction false} NextField(rd: Reader, fields: seq<Field>, d: nat, tail: seq<Line>)
    requires forall i :: 0 <= i < |fields| ==> WfField(rd, fields[i])
    requires AfterFields(d, tail)
    ensures AfterItems(d, PrintFields(fields, d) + tail)
  {
    if fields != [] {
      FieldsHead(rd, fields, d);
    }
  }

  lemma {:induction false} ReadsFields(rd: Reader, fields: seq<Field>, d: nat, acc: map<Key, Value>, tail: seq<Line>)
    requires forall i :: 0 <= i < |fields| ==> WfField(rd, fields[i])
    requires AfterFields(d, tail)
    ensures ParseEntries(rd, PrintFields(fields, d) + tail, d, acc) == Ok((Dict(MeaningFields(rd, fields, acc)), tail))
    decreases fields, 0
  {
    if fields == [] {
      assert PrintFields(fields, d) + tail == tail;
    } else {
      var f, others := fields[0], fields[1..];
      var more := PrintFields(others, d) + tail;
      var k, v := KeyOr(rd, f.key), MeaningField(rd, f);
      calc {
        ParseEntries(rd, PrintFields(fields, d) + tail, d, acc);
        { PrintFieldsSplit(fields, d, tail); }
        ParseEntries(rd, PrintField(f, d) + more, d, acc);
        { NextField(rd, others, d, tail);
          ReadsField(rd, f, d, more);
          FieldHead(rd, f, d);
          EntriesStep(rd, PrintField(f, d) + more, d, acc, k, v, more); }
        ParseEntries(rd, more, d, acc[k := v]);
        { ReadsFields(rd, others, d, acc[k := v], tail); }
        Ok((Dict(MeaningFields(rd, others, acc[k := v])), tail));
        Ok((Dict(MeaningFields(rd, fields, acc)), tail));
      }
    }
  }

  function FieldLine(f: Field, d: nat): Line
  {
    Line(d, EntryLine(f.key, ValueText(f.doc)))
  }

  lemma {:induction false} PrintFieldSplit(f: Field, d: nat, more: seq<Line>)
    ensures PrintField(f, d) + more == [FieldLine(f, d)] + (Print(f.doc, d + f.step) + more)
  {
  }

  lemma {:induction false} ReadsField(rd: Reader, f: Field, d: nat, more: seq<Line>)
    requires WfField(rd, f) && AfterItems(d, more)
    ensures ParseEntry(rd, PrintField(f, d) + more, d) == Ok((KeyOr(rd, f.key), MeaningField(rd, f), more))
    decreases f, 2
  {
    var text := ValueText(f.doc);
    var after := Print(f.doc, d + f.step) + more;
    assert Sound(rd, f.doc);
    calc {
      ParseEntry(rd, PrintField(f, d) + more, d);
      { PrintFieldSplit(f, d, more); }
      ParseEntry(rd, [Line(d, EntryLine(f.key, text))] + after, d);
      { ReadsFieldValue(rd, f, d, more);
        EntryIs(rd, f.key, text, d, after, MeaningField(rd, f), more); }
      Ok((KeyOr(rd, f.key), MeaningField(rd, f), more));
    }
  }

  // Parsing the value of an entry gives its meaning and the lines after it.
  ghost predicate ValueReads(rd: Reader, f: Field, d: nat, more: seq<Line>)
  {
    ParseEntryValue(rd, [FieldLine(f, d)] + (Print(f.doc, d + f.step) + more), d, ValueText(f.doc))
    == Ok((MeaningField(rd, f), more))
  }

  lemma {:induction false} ReadsFieldValue(rd: Reader, f: Field, d: nat, more: seq<Line>)
    requires WfField(rd, f) && AfterItems(d, more)
    ensures ValueReads(rd, f, d, more)
    decreases f, 1
  {
    assert Sound(rd, f.doc);
    match f.doc
    case Leaf(_) => ReadsFieldLeaf(rd, f, d, more);
    case Empty => ReadsFieldEmpty(rd, f, d, more);
    case Items(_) => ReadsFieldBlock(rd, f, d, more);
    case Fields(_) => ReadsFieldBlock(rd, f, d, more);
  }

  lemma {:induction false} ReadsFieldLeaf(rd: Reader, f: Field, d: nat, more: seq<Line>)
    requires f.doc.Leaf? && OneLine(f.doc.text) && rd(f.doc.text).Some?
    ensures ValueReads(rd, f, d, more)
  {
    assert Print(f.doc, d + f.step) == [];
    assert [] + more == more;
    ValueScalar(rd, FieldLine(f, d), f.doc.text, d, more);
  }

  lemma {:induction false} ReadsFieldEmpty(rd: Reader, f: Field, d: nat, more: seq<Line>)
    requires f.doc.Empty? && AfterItems(d, more)
    ensures ValueReads(rd, f, d, more)
  {
    assert Print(f.doc, d + f.step) == [];
    assert [] + more == more;
    ValueNull(rd, FieldLine(f, d), d, more);
  }

  // A block that reads well under a key is the value of the key.
  lemma {:induction false} BlockIsValue(rd: Reader, line: Line, block: seq<Line>, d: nat, more: seq<Line>, v: Value)
    requires block != [] && (block[0].indent > d || (block[0].indent == d && IsDash(block[0].content)))
    requires Parse(rd, block + more, block[0].indent) == Ok((v, more))
    ensures ParseEntryValue(rd, [line] + (block + more), d, "") == Ok((v, more))
  {
    ValueBlock(rd, line, d, block + more);
  }

  lemma {:induction false} ReadsFieldBlock(rd: Reader, f: Field, d: nat, more: seq<Line>)
    requires WfField(rd, f) && IsBlock(f.doc) && AfterItems(d, more)
    ensures ValueReads(rd, f, d, more)
    decreases f, 0
  {
    BlockHead(rd, f.doc, d + f.step);
    ReadsBlock(rd, f.doc, d + f.step, more);
    BlockIsValue(rd, FieldLine(f, d), Print(f.doc, d + f.step), d, more, MeaningField(rd, f));
  }
}
