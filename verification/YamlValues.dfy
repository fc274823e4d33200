// Values written by an encoder and read back, and an encoder that quotes every
// string. scripts/rust-port/device_list_differential.py
module YamlValues {
  import opened Wrappers
  import opened Text
  import opened Trees
  import opened YamlScalars
  import opened BlockYaml
  import opened YamlLayouts
  import opened YamlDocuments
  import N = Numerals

  // ---------------------------------------------------------------- encoders

  // The choices of an encoder: the text of scalars, empty containers and keys,
  // the order of keys, the indentation of sequences and of mappings under a
  // key, and whether a mapping starts on its dash line where it can.
  datatype Encoder = Encoder(text: Value -> string, key: Key -> string, order: set<Key> -> seq<Key>,
                             seqStep: nat, mapStep: nat, compact: bool)
  {
    ghost predicate Valid()
    {
      mapStep > 0 && forall s, k :: k in order(s) <==> k in s
    }
  }

  // A value that is written as a block of lines.
  predicate IsNested(v: Value) { (v.List? && v.items != []) || (v.Dict? && v.entries != map[]) }

  function Encode(e: Encoder, v: Value): Doc
    decreases v, 1, 0
  {
    if !IsNested(v) then Leaf(e.text(v))
    else if v.List? then Items(EncodeItems(e, v.items))
    else Fields(EncodeFields(e, v, e.order(v.entries.Keys)))
  }

  function EncodeItems(e: Encoder, xs: seq<Value>): (r: seq<Item>)
    ensures |r| == |xs|
    decreases xs, 0, 0
  {
    if xs == [] then [] else [EncodeItem(e, xs[0])] + EncodeItems(e, xs[1..])
  }

  function EncodeItem(e: Encoder, v: Value): Item
    decreases v, 2, 0
  {
    var doc := Encode(e, v);
    Item(if e.compact && CanBeCompact(doc) then 0 else e.mapStep, doc)
  }

  predicate CanBeCompact(doc: Doc)
  {
    doc.Fields? && doc.fields != [] && doc.fields[0].key != "" && !IsQuote(doc.fields[0].key[0])
  }

  function EncodeFields(e: Encoder, v: Value, keys: seq<Key>): seq<Field>
    requires v.Dict?
    decreases v, 0, |keys|
  {
    if keys == [] then []
    else if keys[0] !in v.entries then EncodeFields(e, v, keys[1..])
    else [EncodeField(e, keys[0], Encode(e, v.entries[keys[0]]))] + EncodeFields(e, v, keys[1..])
  }

  function EncodeField(e: Encoder, k: Key, doc: Doc): Field
  {
    Field(e.key(k), if doc.Items? then e.seqStep else e.mapStep, doc)
  }

  // ---------------------------------------------------------------- reading back

  // Text that stands for a value that is not nested, also as an item.
  predicate WritesScalar(rd: Reader, text: string, v: Value)
  {
    OneLine(text) && rd(text) == Some(v) && (IsQuote(text[0]) || SplitKey(text).None?)
  }

  predicate WritesKey(rd: Reader, text: string, k: Key)
  {
    WfKey(rd, text) && KeyOr(rd, text) == k
  }

  // The reader knows the encoder's scalars and keys in v.
  predicate Writes(rd: Reader, e: Encoder, v: Value)
    decreases v
  {
    if !IsNested(v) then WritesScalar(rd, e.text(v), v)
    else if v.List? then forall i :: 0 <= i < |v.items| ==> Writes(rd, e, v.items[i])
    else forall k :: k in v.entries ==> WritesKey(rd, e.key(k), k) && Writes(rd, e, v.entries[k])
  }

  lemma {:induction false} EncodedIs(rd: Reader, e: Encoder, v: Value)
    requires e.Valid() && Writes(rd, e, v)
    ensures Wf(rd, Encode(e, v)) && Meaning(rd, Encode(e, v)) == v
    ensures Encode(e, v).Leaf? ==> WritesScalar(rd, Encode(e, v).text, v)
    ensures Encode(e, v).Leaf? || IsBlock(Encode(e, v))
    decreases v, 1, 0
  {
    if IsNested(v) {
      if v.List? {
        ItemsAre(rd, e, v.items);
      } else {
        FieldsOfDict(rd, e, v);
      }
    }
  }

  lemma {:induction false} ItemsAre(rd: Reader, e: Encoder, xs: seq<Value>)
    requires e.Valid() && forall i :: 0 <= i < |xs| ==> Writes(rd, e, xs[i])
    ensures var r := EncodeItems(e, xs);
            (forall i :: 0 <= i < |r| ==> WfItem(rd, r[i])) && MeaningItems(rd, r) == xs
    decreases xs, 0, 0
  {
    if xs != [] {
      ItemIs(rd, e, xs[0]);
      ItemsAre(rd, e, xs[1..]);
      assert EncodeItems(e, xs)[1..] == EncodeItems(e, xs[1..]);
    }
  }

  lemma {:induction false} ItemIs(rd: Reader, e: Encoder, v: Value)
    requires e.Valid() && Writes(rd, e, v)
    ensures WfItem(rd, EncodeItem(e, v)) && MeaningItem(rd, EncodeItem(e, v)) == v
    decreases v, 2, 0
  {
    EncodedIs(rd, e, v);
  }

  // A dictionary that holds what acc holds, with the given keys taken from m.
  ghost predicate Merged(r: map<Key, Value>, acc: map<Key, Value>, m: map<Key, Value>, keys: seq<Key>)
  {
    && (forall k :: k in r <==> k in acc || (k in m && k in keys))
    && (forall k :: k in r ==> r[k] == if k in m && k in keys then m[k] else acc[k])
  }

  lemma {:induction false} FieldsAre(rd: Reader, e: Encoder, v: Value, keys: seq<Key>, acc: map<Key, Value>)
    requires e.Valid() && v.Dict?
    requires forall k :: k in v.entries ==> WritesKey(rd, e.key(k), k) && Writes(rd, e, v.entries[k])
    ensures var r := EncodeFields(e, v, keys);
            (forall i :: 0 <= i < |r| ==> WfField(rd, r[i])) && Merged(MeaningFields(rd, r, acc), acc, v.entries, keys)
    decreases v, 0, |keys|
  {
    if keys != [] {
      var k, m := keys[0], v.entries;
      assert forall x :: x in keys <==> x == k || x in keys[1..];
      if k !in m {
        FieldsAre(rd, e, v, keys[1..], acc);
      } else {
        EncodedIs(rd, e, m[k]);
        FieldsAre(rd, e, v, keys[1..], acc[k := m[k]]);
        var r := EncodeFields(e, v, keys);
        assert r[1..] == EncodeFields(e, v, keys[1..]);
      }
    }
  }

  lemma {:induction false} FieldsOfDict(rd: Reader, e: Encoder, v: Value)
    requires e.Valid() && v.Dict? && v.entries != map[]
    requires forall k :: k in v.entries ==> WritesKey(rd, e.key(k), k) && Writes(rd, e, v.entries[k])
    ensures var r := EncodeFields(e, v, e.order(v.entries.Keys));
            && r != [] && (forall i :: 0 <= i < |r| ==> WfField(rd, r[i]))
            && MeaningFields(rd, r, map[]) == v.entries
    decreases v, 0, |e.order(v.entries.Keys)| + 1
  {
    FieldsAre(rd, e, v, e.order(v.entries.Keys), map[]);
  }

  // Every value, however it is encoded, is read back.
  lemma {:induction false} ValueReadsBack(rd: Reader, e: Encoder, v: Value, d: nat)
    requires e.Valid() && Writes(rd, e, v) && IsNested(v)
    ensures MiniYaml(rd, Render(Print(Encode(e, v), d))) == Ok(v)
  {
    EncodedIs(rd, e, v);
    LayoutReadsBack(rd, Encode(e, v), d);
  }

  // ---------------------------------------------------------------- quoting every string

  function Doubled(s: string): string
  {
    if s == "" then ""
    else (if s[0] == '\'' then "''" else [s[0]]) + Doubled(s[1..])
  }

  lemma {:induction false} UndoubleDoubled(s: string)
    ensures Undouble(Doubled(s)) == s
  {
    if s != "" {
      UndoubleDoubled(s[1..]);
      var d := Doubled(s);
      if s[0] == '\'' {
        assert d[2..] == Doubled(s[1..]);
        assert s == "'" + s[1..];
      } else {
        assert d[1..] == Doubled(s[1..]);
        assert s == [s[0]] + s[1..];
      }
    }
  }

  function InQuotes(s: string): string { "'" + Doubled(s) + "'" }

  // The quoted token ends at its own quote, not at one inside.
  lemma {:induction false} QuoteEnds(front: string, s: string)
    ensures var t := front + Doubled(s) + "'"; SingleEnd(t, |front|) == Some(|t|)
    decreases |s|
  {
    if s != "" {
      var one := if s[0] == '\'' then "''" else [s[0]];
      QuoteEnds(front + one, s[1..]);
      assert front + Doubled(s) + "'" == front + one + Doubled(s[1..]) + "'";
    }
  }

  lemma {:induction false} DoubledKeepsLine(s: string)
    requires '\n' !in s
    ensures '\n' !in Doubled(s)
  {
    if s != "" {
      DoubledKeepsLine(s[1..]);
    }
  }

  lemma {:induction false} QuotedIsRead(cd: Codec, s: string)
    requires '\n' !in s && cd.fold(Doubled(s)) == Doubled(s)
    ensures var t := InQuotes(s); OneLine(t) && Scalar(cd, t) == Some(Str(s)) && KeyText(t)
  {
    var t := InQuotes(s);
    DoubledKeepsLine(s);
    assert t[0] == '\'' && t[|t| - 1] == '\'' && t[1..|t| - 1] == Doubled(s);
    StripTrimmed(t);
    UndoubleDoubled(s);
    QuoteEnds("'", s);
  }

  function IntText(i: int): string { if i < 0 then "-" + N.Digits(-i, 10) else N.Digits(i, 10) }

  // Text without a colon is no entry.
  lemma {:induction false} NoColonNoEntry(s: string)
    requires s != "" && !IsQuote(s[0]) && ':' !in s
    ensures SplitKey(s).None? && ColonAt(s, 0) == None
  {
  }

  predicate Signed(c: char) { c == '-' || N.IsDigit(c, 10) }

  lemma {:induction false} IntTextIs(i: int)
    ensures var t := IntText(i);
            && IsInteger(t) && IntegerValue(t) == i
            && (forall k :: 0 <= k < |t| ==> Signed(t[k])) && t != "-"
  {
    var t, digits := IntText(i), N.Digits(if i < 0 then -i else i, 10);
    assert forall k :: 0 <= k < |digits| ==> N.IsDigit(digits[k], 10);
    assert N.IsDigit(digits[0], 10);
    assert i < 0 ==> t[1..] == digits;
  }

  lemma {:induction false} SignedText(t: string)
    requires t != "" && forall k :: 0 <= k < |t| ==> Signed(t[k])
    ensures OneLine(t) && ':' !in t
  {
    assert Signed(t[0]) && Signed(t[|t| - 1]);
  }

  lemma {:induction false} IntegerIsRead(cd: Codec, t: string)
    requires IsInteger(t) && OneLine(t) && Signed(t[0])
    ensures Scalar(cd, t) == Some(Int(IntegerValue(t)))
  {
    StripTrimmed(t);
  }

  lemma {:induction false} IntIsRead(cd: Codec, i: int)
    ensures var t := IntText(i);
            OneLine(t) && Scalar(cd, t) == Some(Int(i)) && !IsQuote(t[0]) && ':' !in t && !IsDash(t) && t[0] != '#'
  {
    var t := IntText(i);
    IntTextIs(i);
    SignedText(t);
    assert Signed(t[0]) && (|t| > 1 ==> Signed(t[1]));
    IntegerIsRead(cd, t);
  }

  function ScalarText(v: Value): string
  {
    match v
    case Null => "null"
    case Bool(b) => if b then "true" else "false"
    case Int(i) => IntText(i)
    case Real(_) => ""
    case Str(s) => InQuotes(s)
    case List(_) => "[]"
    case Dict(_) => "{}"
  }

  function KeyValue(k: Key): Value
  {
    match k
    case NullKey => Null
    case BoolKey(b) => Bool(b)
    case IntKey(i) => Int(i)
    case RealKey(f) => Real(f)
    case StrKey(s) => Str(s)
  }

  // A scalar whose text needs no other library: no float, and no string that
  // is folded or holds a line feed.
  predicate Direct(cd: Codec, v: Value)
  {
    match v
    case Real(_) => false
    case Str(s) => '\n' !in s && cd.fold(Doubled(s)) == Doubled(s)
    case _ => true
  }

  predicate AllDirect(cd: Codec, v: Value)
    decreases v
  {
    match v
    case List(xs) => forall i :: 0 <= i < |xs| ==> AllDirect(cd, xs[i])
    case Dict(m) => forall k :: k in m ==> Direct(cd, KeyValue(k)) && AllDirect(cd, m[k])
    case _ => Direct(cd, v)
  }

  lemma {:induction false} ScalarIsWritten(cd: Codec, v: Value)
    requires !IsNested(v) && Direct(cd, v)
    ensures WritesScalar(ScalarReader(cd), ScalarText(v), v)
  {
    var t := ScalarText(v);
    match v
    case Int(i) => IntIsRead(cd, i); NoColonNoEntry(t);
    case Str(s) => QuotedIsRead(cd, s);
    case _ => NoColonNoEntry(t); StripTrimmed(t);
  }

  lemma {:induction false} KeyIsWritten(cd: Codec, k: Key)
    requires Direct(cd, KeyValue(k))
    ensures WritesKey(ScalarReader(cd), ScalarText(KeyValue(k)), k)
  {
    var t := ScalarText(KeyValue(k));
    match k
    case IntKey(i) => IntIsRead(cd, i); NoColonNoEntry(t);
    case StrKey(s) => QuotedIsRead(cd, s);
    case _ => NoColonNoEntry(t); StripTrimmed(t);
  }

  // The encoder that puts every string in single quotes.
  function Quoting(order: set<Key> -> seq<Key>, seqStep: nat, mapStep: nat, compact: bool): Encoder
  {
    Encoder(v => ScalarText(v), k => ScalarText(KeyValue(k)), order, seqStep, mapStep, compact)
  }

  lemma {:induction false} QuotingWrites(cd: Codec, e: Encoder, v: Value)
    requires e == Quoting(e.order, e.seqStep, e.mapStep, e.compact) && AllDirect(cd, v)
    ensures Writes(ScalarReader(cd), e, v)
    decreases v
  {
    if !IsNested(v) {
      ScalarIsWritten(cd, v);
    } else if v.List? {
      forall i | 0 <= i < |v.items| ensures Writes(ScalarReader(cd), e, v.items[i]) {
        QuotingWrites(cd, e, v.items[i]);
      }
    } else {
      forall k | k in v.entries
        ensures WritesKey(ScalarReader(cd), e.key(k), k) && Writes(ScalarReader(cd), e, v.entries[k])
      {
        KeyIsWritten(cd, k);
        QuotingWrites(cd, e, v.entries[k]);
      }
    }
  }

  // Every value without floats is read back by mini_yaml from the quoting
  // encoder, for every order of keys and every indentation.
  lemma {:induction false} QuotedReadsBack(cd: Codec, order: set<Key> -> seq<Key>, seqStep: nat, mapStep: nat,
                                           compact: bool, v: Value, d: nat)
    requires Quoting(order, seqStep, mapStep, compact).Valid() && AllDirect(cd, v) && IsNested(v)
    ensures var e := Quoting(order, seqStep, mapStep, compact);
            MiniYaml(ScalarReader(cd), Render(Print(Encode(e, v), d))) == Ok(v)
  {
    var e := Quoting(order, seqStep, mapStep, compact);
    QuotingWrites(cd, e, v);
    ValueReadsBack(ScalarReader(cd), e, v, d);
  }
}
