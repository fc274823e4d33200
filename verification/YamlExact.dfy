// Exactly which documents are read back as their value:
// scripts/rust-port/device_list_differential.py
module YamlExact {
  import opened Wrappers
  import opened Text
  import opened Trees
  import opened YamlScalars
  import opened BlockYaml
  import opened YamlLayouts
  import opened YamlDocuments
  import opened YamlTaken

  // ---------------------------------------------------------------- one item

  predicate IsContainer(v: Value) { v.List? || v.Dict? }

  lemma {:induction false} ItemsGiveList(rd: Reader, ls: seq<Line>, d: nat, acc: seq<Value>)
    ensures var r := ParseItems(rd, ls, d, acc); r.Ok? ==> r.value.0.List? && acc <= r.value.0.items
    decreases |ls|
  {
    if StartsItem(d, ls) {
      match ParseItem(rd, ls, d)
      case Err(_) =>
      case Ok((v, rest)) =>
        ItemsGiveList(rd, rest, d, acc + [v]);
    }
  }

  lemma {:induction false} EntriesGiveDict(rd: Reader, ls: seq<Line>, d: nat, acc: map<Key, Value>)
    ensures var r := ParseEntries(rd, ls, d, acc); r.Ok? ==> r.value.0.Dict?
    decreases |ls|
  {
    if StartsEntry(d, ls) {
      match ParseEntry(rd, ls, d)
      case Err(_) =>
      case Ok((k, v, rest)) =>
        EntriesGiveDict(rd, rest, d, acc[k := v]);
    }
  }

  lemma {:induction false} ParseGivesContainer(rd: Reader, ls: seq<Line>, d: nat)
    requires ls != []
    ensures var r := Parse(rd, ls, d); r.Ok? ==> IsContainer(r.value.0)
  {
    ItemsGiveList(rd, ls, d, []);
    EntriesGiveDict(rd, ls, d, map[]);
  }

  // The only scalars that are containers are the empty ones.
  lemma {:induction false} EmptyContainers(cd: Codec, text: string)
    requires Scalar(cd, text).Some? && IsContainer(Scalar(cd, text).value)
    ensures Strip(text) == "[]" || Strip(text) == "{}"
  {
  }

  lemma {:induction false} EmptyContainersAreNoEntries()
    ensures SplitKey("[]").None? && SplitKey("{}").None?
  {
    assert ColonAt("[]", 0) == ColonAt("[]", 1) == ColonAt("[]", 2) == None;
    assert ColonAt("{}", 0) == ColonAt("{}", 1) == ColonAt("{}", 2) == None;
  }

  // Text that is read as an entry is no container as a scalar, and neither is
  // text that starts with a quote or a dash.
  lemma {:induction false} IsNoContainer(cd: Codec, text: string)
    requires OneLine(text) && (SplitKey(text).Some? || IsQuote(text[0]) || text[0] == '-') && Scalar(cd, text).Some?
    ensures !IsContainer(Scalar(cd, text).value)
  {
    if IsContainer(Scalar(cd, text).value) {
      StripTrimmed(text);
      EmptyContainersAreNoEntries();
      EmptyContainers(cd, text);
    }
  }

  // A result that is not the value.
  predicate Wrong(r: Result<(Value, seq<Line>)>, v: Value) { r.Ok? ==> r.value.0 != v }

  // A scalar that looks like an entry is read as a block.
  lemma {:induction false} ScalarItemDiffers(cd: Codec, text: string, d: nat, more: seq<Line>)
    requires OneLine(text) && Scalar(cd, text).Some? && !IsQuote(text[0]) && SplitKey(text).Some?
    ensures IsDash(DashLine(text))
    ensures Wrong(ParseItem(ScalarReader(cd), [Line(d, DashLine(text))] + more, d), Scalar(cd, text).value)
  {
    ItemCompact(ScalarReader(cd), text, d, more);
    ParseGivesContainer(ScalarReader(cd), [Line(d + 2, text)] + more, d + 2);
    IsNoContainer(cd, text);
  }

  // A block that does not look like an entry is read as a scalar.
  lemma {:induction false} BlockItemDiffers(cd: Codec, text: string, d: nat, more: seq<Line>)
    requires OneLine(text) && (IsQuote(text[0]) || (text[0] == '-' && SplitKey(text).None?))
    ensures IsDash(DashLine(text))
    ensures var r := ParseItem(ScalarReader(cd), [Line(d, DashLine(text))] + more, d);
            r.Ok? ==> !IsContainer(r.value.0)
  {
    DashLineIs(text);
    assert ([Line(d, DashLine(text))] + more)[1..] == more;
    if Scalar(cd, text).Some? {
      IsNoContainer(cd, text);
    }
  }

  lemma {:induction false} UnrecognisedBlock(cd: Codec, item: Item, d: nat, more: seq<Line>)
    requires SoundItem(ScalarReader(cd), item) && IsBlock(item.doc) && !Recognisable(item)
    ensures StartsItem(d, PrintItem(item, d))
    ensures Wrong(ParseItem(ScalarReader(cd), PrintItem(item, d) + more, d), MeaningItem(ScalarReader(cd), item))
  {
    var rd, block, text := ScalarReader(cd), Print(item.doc, d + 2), HeadText(item.doc);
    ItemHead(rd, item, d);
    assert Sound(rd, item.doc);
    HeadIs(rd, item.doc, d + 2);
    if item.doc.Fields? {
      EntryLineIs(rd, item.doc.fields[0]);
    }
    MovedUp(block, text, d, more);
    BlockItemDiffers(cd, text, d, block[1..] + more);
  }

  // An item that is not recognisable is read as something else, if at all.
  lemma {:induction false} UnrecognisedDiffers(cd: Codec, item: Item, d: nat, more: seq<Line>)
    requires SoundItem(ScalarReader(cd), item) && !Recognisable(item)
    ensures StartsItem(d, PrintItem(item, d))
    ensures Wrong(ParseItem(ScalarReader(cd), PrintItem(item, d) + more, d), MeaningItem(ScalarReader(cd), item))
  {
    assert Sound(ScalarReader(cd), item.doc);
    if item.doc.Leaf? {
      ScalarItemDiffers(cd, item.doc.text, d, more);
    } else {
      UnrecognisedBlock(cd, item, d, more);
    }
  }

  // A reader that gives nothing of the kind that was meant for an item that is
  // not recognisable.
  ghost predicate Discerning(rd: Reader)
  {
    forall item, d: nat, more :: Discerns(rd, item, d, more)
  }

  ghost predicate Discerns(rd: Reader, item: Item, d: nat, more: seq<Line>)
  {
    SoundItem(rd, item) && !Recognisable(item) ==>
      StartsItem(d, PrintItem(item, d)) && Wrong(ParseItem(rd, PrintItem(item, d) + more, d), MeaningItem(rd, item))
  }

  lemma {:induction false} ScalarsAreDiscerning(cd: Codec)
    ensures Discerning(ScalarReader(cd))
  {
    forall item, d: nat, more ensures Discerns(ScalarReader(cd), item, d, more) {
      if SoundItem(ScalarReader(cd), item) && !Recognisable(item) {
        UnrecognisedDiffers(cd, item, d, more);
      }
    }
  }

  // An item that is well-formed inside is read back exactly if it is
  // recognisable, whatever follows it.
  lemma {:induction false} ItemReadsIff(cd: Codec, item: Item, d: nat, more: seq<Line>)
    requires Wf(ScalarReader(cd), item.doc) && (more == [] || more[0].indent <= d)
    ensures ItemReads(ScalarReader(cd), item, d, more) <==> Recognisable(item)
  {
    if Recognisable(item) {
      ReadsItem(ScalarReader(cd), item, d, more);
    } else {
      UnrecognisedDiffers(cd, item, d, more);
    }
  }

  // ---------------------------------------------------------------- lines and keys

  predicate AllIndented(ls: seq<Line>, d: nat) { forall j :: 0 <= j < |ls| ==> ls[j].indent >= d }

  // The lines at the indent itself are dashes.
  predicate DashedAt(ls: seq<Line>, d: nat) { forall j :: 0 <= j < |ls| && ls[j].indent == d ==> IsDash(ls[j].content) }

  lemma {:induction false} BlockIsDeep(rd: Reader, doc: Doc, d: nat)
    requires Sound(rd, doc)
    ensures AllIndented(Print(doc, d), d) && (doc.Items? ==> DashedAt(Print(doc, d), d))
    decreases doc, 1
  {
    match doc
    case Items(items) => ItemsAreDeep(rd, items, d);
    case Fields(fields) => FieldsAreDeep(rd, fields, d);
    case _ =>
  }

  lemma {:induction false} ItemsAreDeep(rd: Reader, items: seq<Item>, d: nat)
    requires forall i :: 0 <= i < |items| ==> SoundItem(rd, items[i])
    ensures AllIndented(PrintItems(items, d), d) && DashedAt(PrintItems(items, d), d)
    decreases items, 0
  {
    if items != [] {
      ItemIsDeep(rd, items[0], d);
      ItemsAreDeep(rd, items[1..], d);
    }
  }

  lemma {:induction false} ItemIsDeep(rd: Reader, item: Item, d: nat)
    requires SoundItem(rd, item)
    ensures AllIndented(PrintItem(item, d), d) && DashedAt(PrintItem(item, d), d)
    decreases item, 0
  {
    assert Sound(rd, item.doc);
    ItemHeadIs(rd, item, d);
    BlockIsDeep(rd, item.doc, d + 2);
    BlockIsDeep(rd, item.doc, d + item.step);
  }

  lemma {:induction false} FieldsAreDeep(rd: Reader, fields: seq<Field>, d: nat)
    requires forall i :: 0 <= i < |fields| ==> SoundField(rd, fields[i])
    ensures AllIndented(PrintFields(fields, d), d)
    decreases fields, 0
  {
    if fields != [] {
      BlockIsDeep(rd, fields[0].doc, d + fields[0].step);
      FieldsAreDeep(rd, fields[1..], d);
    }
  }

  predicate KeyIn(rd: Reader, fields: seq<Field>, k: Key)
  {
    exists i :: 0 <= i < |fields| && KeyOr(rd, fields[i].key) == k
  }

  // No entry that holds an unrecognisable item is overwritten by a later entry
  // with the same key; so of every document without repeated keys.
  predicate NotOverwritten(rd: Reader, doc: Doc)
    decreases doc
  {
    Recognised(doc) ||
    match doc
    case Items(items) => forall i :: 0 <= i < |items| ==> NotOverwritten(rd, items[i].doc)
    case Fields(fields) => FieldsNotOverwritten(rd, fields)
    case _ => true
  }

  predicate FieldsNotOverwritten(rd: Reader, fields: seq<Field>)
    decreases fields
  {
    fields != [] ==>
      && (RecognisedField(fields[0]) || !KeyIn(rd, fields[1..], KeyOr(rd, fields[0].key)))
      && NotOverwritten(rd, fields[0].doc) && FieldsNotOverwritten(rd, fields[1..])
  }

  // The lines under a key set no key of the mapping.
  lemma {:induction false} UnderLeaves(rd: Reader, f: Field, d: nat, k: Key)
    requires SoundField(rd, f)
    ensures LeaveKey(rd, Print(f.doc, d + f.step), d, k)
  {
    var ls := Print(f.doc, d + f.step);
    assert Sound(rd, f.doc);
    BlockIsDeep(rd, f.doc, d + f.step);
    forall j | 0 <= j < |ls| ensures LeavesKey(rd, ls[j], d, k) {
      assert ls[j].indent >= d + f.step;
    }
  }

  lemma {:induction false} KeyInTail(rd: Reader, fields: seq<Field>, k: Key)
    requires fields != [] && !KeyIn(rd, fields, k)
    ensures KeyOr(rd, fields[0].key) != k && !KeyIn(rd, fields[1..], k)
  {
    assert forall i :: 0 <= i < |fields[1..]| ==> fields[1..][i] == fields[i + 1];
  }

  lemma {:induction false} FieldLeaves(rd: Reader, f: Field, d: nat, k: Key)
    requires SoundField(rd, f) && KeyOr(rd, f.key) != k
    ensures LeaveKey(rd, PrintField(f, d), d, k)
  {
    UnderLeaves(rd, f, d, k);
    HeadLeaves(rd, f, d, k);
    LeaveBoth(rd, [FieldLine(f, d)], Print(f.doc, d + f.step), d, k);
  }

  // The lines of a mapping set only its own keys.
  lemma {:induction false} FieldsLeave(rd: Reader, fields: seq<Field>, d: nat, k: Key)
    requires (forall i :: 0 <= i < |fields| ==> SoundField(rd, fields[i])) && !KeyIn(rd, fields, k)
    ensures LeaveKey(rd, PrintFields(fields, d), d, k)
    decreases |fields|
  {
    if fields != [] {
      KeyInTail(rd, fields, k);
      FieldsLeave(rd, fields[1..], d, k);
      FieldLeaves(rd, fields[0], d, k);
      LeaveBoth(rd, PrintField(fields[0], d), PrintFields(fields[1..], d), d, k);
    }
  }

  lemma {:induction false} HeadLeaves(rd: Reader, f: Field, d: nat, k: Key)
    requires SoundField(rd, f) && KeyOr(rd, f.key) != k
    ensures LeaveKey(rd, [FieldLine(f, d)], d, k)
  {
    assert Sound(rd, f.doc);
    SplitKeyIs(f.key, ValueText(f.doc));
  }

  lemma {:induction false} LeaveBoth(rd: Reader, a: seq<Line>, b: seq<Line>, d: nat, k: Key)
    requires LeaveKey(rd, a, d, k) && LeaveKey(rd, b, d, k)
    ensures LeaveKey(rd, a + b, d, k)
  {
  }

  // ---------------------------------------------------------------- whole documents

  lemma {:induction false} BlockMisread(rd: Reader, doc: Doc, d: nat, tail: seq<Line>)
    requires Discerning(rd)
    requires Sound(rd, doc) && IsBlock(doc) && NotOverwritten(rd, doc) && !Recognised(doc)
    requires After(doc, d, tail)
    ensures Print(doc, d) != []
    ensures Wrong(Parse(rd, Print(doc, d) + tail, d), Meaning(rd, doc))
    decreases doc, 2
  {
    var ls := Print(doc, d) + tail;
    HeadIs(rd, doc, d);
    match doc
    case Items(items) =>
      ParseSequence(rd, ls, d);
      ItemsMisread(rd, items, d, [], tail);
      assert [] + MeaningItems(rd, items) == MeaningItems(rd, items);
    case Fields(fields) =>
      ParseMapping(rd, ls, d);
      FieldsMisread(rd, fields, d, map[], tail);
  }

  // An item that is read wrongly stays wrong in the result.
  lemma {:induction false} WrongItemStays(rd: Reader, ls: seq<Line>, d: nat, acc: seq<Value>, v: Value, all: seq<Value>)
    requires StartsItem(d, ls) && |acc| < |all| && all[|acc|] == v && Wrong(ParseItem(rd, ls, d), v)
    ensures Wrong(ParseItems(rd, ls, d, acc), List(all))
  {
    match ParseItem(rd, ls, d)
    case Err(_) =>
    case Ok((w, rest)) =>
      ItemsStep(rd, ls, d, acc, w, rest);
      ItemsGiveList(rd, rest, d, acc + [w]);
      assert (acc + [w])[|acc|] == w;
  }

  // The lines after an item.
  lemma {:induction false} AfterItem(rd: Reader, items: seq<Item>, d: nat, tail: seq<Line>)
    requires (forall i :: 0 <= i < |items| ==> SoundItem(rd, items[i])) && AfterItems(d, tail)
    ensures var more := PrintItems(items, d) + tail; more == [] || more[0].indent <= d
  {
    if items != [] {
      ItemsHead(rd, items, d);
    }
  }

  lemma {:induction false} GoodItemStep(rd: Reader, items: seq<Item>, d: nat, acc: seq<Value>, tail: seq<Line>)
    requires items != [] && WfItem(rd, items[0])
    requires var more := PrintItems(items[1..], d) + tail; more == [] || more[0].indent <= d
    ensures var v := MeaningItem(rd, items[0]);
            && ParseItems(rd, PrintItems(items, d) + tail, d, acc)
               == ParseItems(rd, PrintItems(items[1..], d) + tail, d, acc + [v])
            && acc + [v] + MeaningItems(rd, items[1..]) == acc + MeaningItems(rd, items)
  {
    var item, more := items[0], PrintItems(items[1..], d) + tail;
    PrintItemsSplit(items, d, tail);
    ItemHead(rd, item, d);
    ReadsItem(rd, item, d, more);
    ItemsStep(rd, PrintItem(item, d) + more, d, acc, MeaningItem(rd, item), more);
    MeaningSplit(rd, items, acc);
  }

  lemma {:induction false} MeaningSplit(rd: Reader, items: seq<Item>, acc: seq<Value>)
    requires items != []
    ensures acc + [MeaningItem(rd, items[0])] + MeaningItems(rd, items[1..]) == acc + MeaningItems(rd, items)
  {
  }

  lemma {:induction false} BadItemStep(rd: Reader, items: seq<Item>, d: nat, acc: seq<Value>, tail: seq<Line>)
    requires items != [] && StartsItem(d, PrintItem(items[0], d))
    requires Wrong(ParseItem(rd, PrintItem(items[0], d) + (PrintItems(items[1..], d) + tail), d), MeaningItem(rd, items[0]))
    ensures Wrong(ParseItems(rd, PrintItems(items, d) + tail, d, acc), List(acc + MeaningItems(rd, items)))
  {
    var all := acc + MeaningItems(rd, items);
    PrintItemsSplit(items, d, tail);
    assert all[|acc|] == MeaningItem(rd, items[0]);
    WrongItemStays(rd, PrintItems(items, d) + tail, d, acc, MeaningItem(rd, items[0]), all);
  }

  lemma {:induction false} ItemsMisread(rd: Reader, items: seq<Item>, d: nat, acc: seq<Value>, tail: seq<Line>)
    requires Discerning(rd) && AfterItems(d, tail)
    requires forall i :: 0 <= i < |items| ==> SoundItem(rd, items[i]) && NotOverwritten(rd, items[i].doc)
    requires exists i :: 0 <= i < |items| && !RecognisedItem(items[i])
    ensures Wrong(ParseItems(rd, PrintItems(items, d) + tail, d, acc), List(acc + MeaningItems(rd, items)))
    decreases items, 1
  {
    AfterItem(rd, items[1..], d, tail);
    if RecognisedItem(items[0]) {
      var i :| 0 <= i < |items| && !RecognisedItem(items[i]);
      assert items[1..][i - 1] == items[i];
      GoodItemStep(rd, items, d, acc, tail);
      ItemsMisread(rd, items[1..], d, acc + [MeaningItem(rd, items[0])], tail);
    } else {
      ItemMisread(rd, items[0], d, PrintItems(items[1..], d) + tail);
      BadItemStep(rd, items, d, acc, tail);
    }
  }

  lemma {:induction false} ItemMisread(rd: Reader, item: Item, d: nat, more: seq<Line>)
    requires Discerning(rd)
    requires SoundItem(rd, item) && NotOverwritten(rd, item.doc) && !RecognisedItem(item)
    requires more == [] || more[0].indent <= d
    ensures StartsItem(d, PrintItem(item, d))
    ensures Wrong(ParseItem(rd, PrintItem(item, d) + more, d), MeaningItem(rd, item))
    decreases item, 3
  {
    ItemHead(rd, item, d);
    if !Recognisable(item) {
      assert Discerns(rd, item, d, more);
    } else {
      var inner := if item.step == 0 then d + 2 else d + item.step;
      BlockMisread(rd, item.doc, inner, more);
      ItemIsBlock(rd, item, d, more);
    }
  }

  // A recognisable block is what its item is read as.
  lemma {:induction false} ItemIsBlock(rd: Reader, item: Item, d: nat, more: seq<Line>)
    requires SoundItem(rd, item) && IsBlock(item.doc) && Recognisable(item)
    ensures StartsItem(d, PrintItem(item, d))
    ensures var inner := if item.step == 0 then d + 2 else d + item.step;
            && Print(item.doc, inner) != []
            && ParseItem(rd, PrintItem(item, d) + more, d) == Parse(rd, Print(item.doc, inner) + more, inner)
  {
    ItemHead(rd, item, d);
    assert Sound(rd, item.doc);
    if item.step == 0 {
      HeadIs(rd, item.doc, d + 2);
      if item.doc.Fields? {
        EntryLineIs(rd, item.doc.fields[0]);
      }
      ParsesMovedUp(rd, Print(item.doc, d + 2), HeadText(item.doc), d, more);
    } else {
      var block := Print(item.doc, d + item.step);
      HeadIs(rd, item.doc, d + item.step);
      ItemBlock(rd, d, block + more);
      assert PrintItem(item, d) + more == [Line(d, "-")] + (block + more);
    }
  }

  // The value of an entry is wrong, or nothing is read.
  predicate WrongEntry(r: Result<(Key, Value, seq<Line>)>, k: Key, v: Value)
  {
    r.Ok? ==> r.value.0 == k && r.value.1 != v
  }

  lemma {:induction false} EntryIsBlock(rd: Reader, f: Field, d: nat, more: seq<Line>)
    requires SoundField(rd, f) && IsBlock(f.doc)
    ensures Print(f.doc, d + f.step) != []
    ensures ParseEntry(rd, PrintField(f, d) + more, d) ==
            match Parse(rd, Print(f.doc, d + f.step) + more, d + f.step)
            case Err(e) => Err(e)
            case Ok((v, rest)) => Ok((KeyOr(rd, f.key), v, rest))
  {
    var block := Print(f.doc, d + f.step);
    assert Sound(rd, f.doc);
    HeadIs(rd, f.doc, d + f.step);
    PrintFieldSplit(f, d, more);
    EntryOfBlock(rd, f.key, d, block + more);
  }

  lemma {:induction false} EntryOfBlock(rd: Reader, key: string, d: nat, after: seq<Line>)
    requires UsableKey(rd, key) && after != []
    requires after[0].indent > d || (after[0].indent == d && IsDash(after[0].content))
    ensures ParseEntry(rd, [Line(d, EntryLine(key, ""))] + after, d) ==
            match Parse(rd, after, after[0].indent)
            case Err(e) => Err(e)
            case Ok((v, rest)) => Ok((KeyOr(rd, key), v, rest))
  {
    SplitKeyIs(key, "");
    ValueBlock(rd, Line(d, EntryLine(key, "")), d, after);
  }

  lemma {:induction false} FieldMisread(rd: Reader, f: Field, d: nat, more: seq<Line>)
    requires Discerning(rd)
    requires SoundField(rd, f) && NotOverwritten(rd, f.doc) && !RecognisedField(f) && AfterItems(d, more)
    ensures WrongEntry(ParseEntry(rd, PrintField(f, d) + more, d), KeyOr(rd, f.key), MeaningField(rd, f))
    decreases f, 3
  {
    AfterUnder(rd, f, d, more);
    BlockMisread(rd, f.doc, d + f.step, more);
    EntryIsBlock(rd, f, d, more);
    WrongUnderKey(Parse(rd, Print(f.doc, d + f.step) + more, d + f.step),
                  ParseEntry(rd, PrintField(f, d) + more, d), KeyOr(rd, f.key), MeaningField(rd, f));
  }

  lemma {:induction false} WrongUnderKey(r: Result<(Value, seq<Line>)>, entry: Result<(Key, Value, seq<Line>)>, k: Key, v: Value)
    requires Wrong(r, v)
    requires entry == match r case Err(e) => Err(e) case Ok((w, rest)) => Ok((k, w, rest))
    ensures WrongEntry(entry, k, v)
  {
  }

  lemma {:induction false} AfterUnder(rd: Reader, f: Field, d: nat, more: seq<Line>)
    requires SoundField(rd, f) && !RecognisedField(f) && AfterItems(d, more)
    ensures Sound(rd, f.doc) && IsBlock(f.doc) && !Recognised(f.doc) && After(f.doc, d + f.step, more)
  {
  }

  lemma {:induction false} TookTail(ls: seq<Line>, rest: seq<Line>, d: nat)
    requires Took(ls, rest, d) && |rest| < |ls|
    ensures Took(ls[1..], rest, d)
  {
    var t := ls[1..];
    forall j | 0 <= j < |t| - |rest| ensures t[j].indent >= d {
      assert t[j] == ls[j + 1];
    }
  }

  // An entry that is read wrongly stays wrong in the result, if no later line
  // sets its key again.
  lemma {:induction false} WrongEntryStays(rd: Reader, ls: seq<Line>, n: nat, d: nat, acc: map<Key, Value>, k: Key, v: Value,
                                           all: map<Key, Value>)
    requires StartsEntry(d, ls) && WrongEntry(ParseEntry(rd, ls, d), k, v) && k in all && all[k] == v
    requires n <= |ls| - 1 && AfterFields(d, ls[1..][n..]) && LeaveKey(rd, ls[1..][..n], d, k)
    ensures Wrong(ParseEntries(rd, ls, d, acc), Dict(all))
  {
    match ParseEntry(rd, ls, d)
    case Err(_) =>
    case Ok((key, w, rest)) =>
      EntriesStep(rd, ls, d, acc, key, w, rest);
      EntryTakes(rd, ls, d);
      TookTail(ls, rest, d);
      SetKeyStays(rd, ls[1..], rest, n, d, acc, k, w);
  }

  lemma {:induction false} SetKeyStays(rd: Reader, ls: seq<Line>, rest: seq<Line>, n: nat, d: nat, acc: map<Key, Value>,
                                       k: Key, w: Value)
    requires Took(ls, rest, d) && n <= |ls| && AfterFields(d, ls[n..]) && LeaveKey(rd, ls[..n], d, k)
    ensures var r := ParseEntries(rd, rest, d, acc[k := w]);
            r.Ok? ==> r.value.0.Dict? && k in r.value.0.entries && r.value.0.entries[k] == w
  {
    StaysInFront(rd, ls, rest, n, d, k);
    KeyStays(rd, rest, n - (|ls| - |rest|), d, acc[k := w], k);
  }

  lemma {:induction false} MeaningKeeps(rd: Reader, fields: seq<Field>, acc: map<Key, Value>, k: Key)
    requires k in acc && !KeyIn(rd, fields, k)
    ensures var m := MeaningFields(rd, fields, acc); k in m && m[k] == acc[k]
    decreases |fields|
  {
    if fields != [] {
      var f := fields[0];
      KeyInTail(rd, fields, k);
      MeaningKeeps(rd, fields[1..], acc[KeyOr(rd, f.key) := MeaningField(rd, f)], k);
    }
  }

  lemma {:induction false} AfterField(rd: Reader, fields: seq<Field>, d: nat, tail: seq<Line>)
    requires (forall i :: 0 <= i < |fields| ==> SoundField(rd, fields[i])) && AfterFields(d, tail)
    ensures AfterItems(d, PrintFields(fields, d) + tail)
  {
    if fields != [] {
      FieldsHead(rd, fields, d);
    }
  }

  lemma {:induction false} GoodFieldStep(rd: Reader, fields: seq<Field>, d: nat, acc: map<Key, Value>, tail: seq<Line>)
    requires fields != [] && WfField(rd, fields[0]) && AfterItems(d, PrintFields(fields[1..], d) + tail)
    ensures var k, v := KeyOr(rd, fields[0].key), MeaningField(rd, fields[0]);
            && ParseEntries(rd, PrintFields(fields, d) + tail, d, acc)
               == ParseEntries(rd, PrintFields(fields[1..], d) + tail, d, acc[k := v])
  {
    var f, more := fields[0], PrintFields(fields[1..], d) + tail;
    PrintFieldsSplit(fields, d, tail);
    FieldHead(rd, f, d);
    ReadsField(rd, f, d, more);
    EntriesStep(rd, PrintField(f, d) + more, d, acc, KeyOr(rd, f.key), MeaningField(rd, f), more);
  }

  lemma {:induction false} BadFieldStep(rd: Reader, fields: seq<Field>, d: nat, acc: map<Key, Value>, tail: seq<Line>)
    requires fields != [] && (forall i :: 0 <= i < |fields| ==> SoundField(rd, fields[i])) && AfterFields(d, tail)
    requires !KeyIn(rd, fields[1..], KeyOr(rd, fields[0].key))
    requires WrongEntry(ParseEntry(rd, PrintField(fields[0], d) + (PrintFields(fields[1..], d) + tail), d),
                        KeyOr(rd, fields[0].key), MeaningField(rd, fields[0]))
    ensures Wrong(ParseEntries(rd, PrintFields(fields, d) + tail, d, acc), Dict(MeaningFields(rd, fields, acc)))
  {
    var f, ls := fields[0], PrintFields(fields, d) + tail;
    var k, v := KeyOr(rd, f.key), MeaningField(rd, f);
    PrintFieldsSplit(fields, d, tail);
    FieldHead(rd, f, d);
    MeaningKeeps(rd, fields[1..], acc[k := v], k);
    var n := RestLeaves(rd, ls, f, fields[1..], d, tail);
    WrongEntryStays(rd, ls, n, d, acc, k, v, MeaningFields(rd, fields, acc));
  }

  lemma {:induction false} FieldsMisread(rd: Reader, fields: seq<Field>, d: nat, acc: map<Key, Value>, tail: seq<Line>)
    requires Discerning(rd) && AfterFields(d, tail) && FieldsNotOverwritten(rd, fields)
    requires forall i :: 0 <= i < |fields| ==> SoundField(rd, fields[i])
    requires exists i :: 0 <= i < |fields| && !RecognisedField(fields[i])
    ensures Wrong(ParseEntries(rd, PrintFields(fields, d) + tail, d, acc), Dict(MeaningFields(rd, fields, acc)))
    decreases fields, 1
  {
    var f := fields[0];
    AfterField(rd, fields[1..], d, tail);
    if RecognisedField(f) {
      var i :| 0 <= i < |fields| && !RecognisedField(fields[i]);
      assert fields[1..][i - 1] == fields[i];
      GoodFieldStep(rd, fields, d, acc, tail);
      FieldsMisread(rd, fields[1..], d, acc[KeyOr(rd, f.key) := MeaningField(rd, f)], tail);
    } else {
      FieldMisread(rd, f, d, PrintFields(fields[1..], d) + tail);
      BadFieldStep(rd, fields, d, acc, tail);
    }
  }

  lemma {:induction false} RestLeaves(rd: Reader, ls: seq<Line>, f: Field, others: seq<Field>, d: nat, tail: seq<Line>)
    returns (n: nat)
    requires SoundField(rd, f) && (forall i :: 0 <= i < |others| ==> SoundField(rd, others[i]))
    requires !KeyIn(rd, others, KeyOr(rd, f.key)) && ls == PrintField(f, d) + (PrintFields(others, d) + tail)
    ensures n <= |ls| - 1 && ls[1..][n..] == tail && LeaveKey(rd, ls[1..][..n], d, KeyOr(rd, f.key))
  {
    var under, rest, k := Print(f.doc, d + f.step), PrintFields(others, d), KeyOr(rd, f.key);
    SecondOn(FieldLine(f, d), under, rest, tail);
    n := |under + rest|;
    assert ls[1..][..n] == under + rest;
    UnderLeaves(rd, f, d, k);
    FieldsLeave(rd, others, d, k);
    LeaveBoth(rd, under, rest, d, k);
  }

  lemma {:induction false} SecondOn(line: Line, under: seq<Line>, rest: seq<Line>, tail: seq<Line>)
    ensures var ls := [line] + under + (rest + tail); var n := |under + rest|;
            n <= |ls| - 1 && ls[1..][n..] == tail && ls[1..][..n] == under + rest
  {
    assert ([line] + under + (rest + tail))[1..] == under + rest + tail;
  }

  // A document is read back exactly if every item in it is recognisable.
  lemma {:induction false} DocumentReadsIff(cd: Codec, doc: Doc, d: nat)
    requires Sound(ScalarReader(cd), doc) && IsBlock(doc) && NotOverwritten(ScalarReader(cd), doc)
    ensures MiniYaml(ScalarReader(cd), Render(Print(doc, d))) == Ok(Meaning(ScalarReader(cd), doc)) <==> Recognised(doc)
  {
    var rd := ScalarReader(cd);
    if Recognised(doc) {
      LayoutReadsBack(rd, doc, d);
    } else {
      TextIsParsed(rd, doc, d);
      ScalarsAreDiscerning(cd);
      BlockMisread(rd, doc, d, []);
      assert Print(doc, d) + [] == Print(doc, d);
    }
  }

  // A sequence whose items are well-formed inside is read back exactly if each
  // of them is recognisable.
  lemma {:induction false} SequenceReadsIff(cd: Codec, items: seq<Item>, d: nat)
    requires items != [] && forall i :: 0 <= i < |items| ==> Wf(ScalarReader(cd), items[i].doc)
    ensures MiniYaml(ScalarReader(cd), Render(Print(Items(items), d))) == Ok(Meaning(ScalarReader(cd), Items(items)))
        <==> forall i :: 0 <= i < |items| ==> Recognisable(items[i])
  {
    var rd := ScalarReader(cd);
    forall i | 0 <= i < |items|
      ensures SoundItem(rd, items[i]) && NotOverwritten(rd, items[i].doc)
      ensures RecognisedItem(items[i]) <==> Recognisable(items[i])
    {
    }
    DocumentReadsIff(cd, Items(items), d);
  }

  // ---------------------------------------------------------------- such documents

  // A sequence of one item that is not recognisable.
  lemma {:induction false} OneItemMisread(cd: Codec, item: Item)
    requires SoundItem(ScalarReader(cd), item) && NotOverwritten(ScalarReader(cd), item.doc) && !Recognisable(item)
    ensures MiniYaml(ScalarReader(cd), Render(Print(Items([item]), 0))) != Ok(Meaning(ScalarReader(cd), Items([item])))
  {
    assert !RecognisedItem([item][0]);
    DocumentReadsIff(cd, Items([item]), 0);
  }

  // `- x: y`, meant as a scalar.
  lemma {:induction false} EntryAsScalar(cd: Codec, text: string)
    requires text == "x: y"
    ensures var doc := Items([Item(0, Leaf(text))]);
            MiniYaml(ScalarReader(cd), Render(Print(doc, 0))) != Ok(Meaning(ScalarReader(cd), doc))
  {
    SplitsXY(text);
    StringIsScalar(cd, text);
    OneItemMisread(cd, Item(0, Leaf(text)));
  }

  lemma {:induction false} SplitsXY(text: string)
    requires text == "x: y"
    ensures SplitKey(text).Some? && OneLine(text)
  {
    assert ColonAt("x", 0) == ColonAt("x", 1) == None;
    SplitKeyIs("x", "y");
    assert text == EntryLine("x", "y");
  }

  lemma {:induction false} StringIsScalar(cd: Codec, text: string)
    requires OneLine(text) && !IsQuote(text[0])
    ensures Scalar(cd, text).Some?
  {
    StripTrimmed(text);
  }

  // `- 'a': 1`, a mapping with a quoted key.
  lemma {:induction false} MappingAsScalar(cd: Codec, key: string, one: string)
    requires key == "'a'" && one == "1" && cd.fold("a") == "a"
    ensures var doc := Items([Item(0, Fields([Field(key, 1, Leaf(one))]))]);
            MiniYaml(ScalarReader(cd), Render(Print(doc, 0))) != Ok(Meaning(ScalarReader(cd), doc))
  {
    var rd, field := ScalarReader(cd), Field(key, 1, Leaf(one));
    var inner := Fields([field]);
    QuotedKey(cd, key);
    StringIsScalar(cd, one);
    assert SoundField(rd, inner.fields[0]) && Sound(rd, inner);
    OneItemMisread(cd, Item(0, inner));
  }

  lemma {:induction false} QuotedKey(cd: Codec, key: string)
    requires key == "'a'" && cd.fold("a") == "a"
    ensures WfKey(ScalarReader(cd), key)
  {
    assert SingleEnd(key, 2) == Some(3) && SingleEnd(key, 1) == Some(3);
    StripTrimmed(key);
    assert key[1..|key| - 1] == "a" && Undouble("a") == "a";
    assert Scalar(cd, key) == Some(Str("a"));
  }

  // `- - 1`, a sequence in a sequence.
  lemma {:induction false} SequenceAsScalar(cd: Codec, one: string)
    requires one == "1"
    ensures var doc := Items([Item(0, Items([Item(0, Leaf(one))]))]);
            MiniYaml(ScalarReader(cd), Render(Print(doc, 0))) != Ok(Meaning(ScalarReader(cd), doc))
  {
    var inner := Items([Item(0, Leaf(one))]);
    assert ItemHeadText(Item(0, Leaf(one))) == DashLine(one);
    assert HeadText(inner) == DashLine(one);
    NoEntry(DashLine(one));
    StringIsScalar(cd, one);
    assert SoundItem(ScalarReader(cd), inner.items[0]) && Sound(ScalarReader(cd), inner);
    OneItemMisread(cd, Item(0, inner));
  }

  lemma {:induction false} NoEntry(text: string)
    requires text == "- 1"
    ensures SplitKey(text).None?
  {
    assert ColonAt(text, 3) == ColonAt(text, 2) == ColonAt(text, 1) == ColonAt(text, 0) == None;
  }
}
