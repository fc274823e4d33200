// `mini_yaml` as it runs: one cursor over a list of lines, shared by every
// level of the recursion, with the current line overwritten in place.
// scripts/rust-port/device_list_differential.py
module YamlReader {
  import opened Wrappers
  import opened Text
  import opened Trees
  import opened YamlScalars
  import B = BlockYaml
  import D = YamlDocuments

  // A run ended as the specification says: same exception, or same value and
  // the same lines left.
  ghost predicate Agrees(spec: Result<(Value, seq<B.Line>)>, r: Result<Value>, rest: seq<B.Line>)
  {
    match spec
    case Err(e) => r == Err(e)
    case Ok((v, left)) => r == Ok(v) && rest == left
  }

  class Cursor {
    const read: Reader
    var lines: seq<B.Line>
    var position: nat

    constructor (read: Reader, lines: seq<B.Line>)
      ensures this.read == read && this.lines == lines && position == 0
    {
      this.read, this.lines, position := read, lines, 0;
    }

    ghost function Left(): seq<B.Line>
      requires position <= |lines|
      reads this
    {
      lines[position..]
    }

    method Parse(indent: nat) returns (r: Result<Value>)
      requires position < |lines|
      modifies this
      ensures |lines| == old(|lines|) && old(position) <= position <= |lines|
      ensures Agrees(B.Parse(read, old(Left()), indent), r, Left())
      decreases |lines| - position, |lines[position].content|, 3
    {
      if IsDash(lines[position].content) {
        r := ParseSequence(indent);
      } else {
        r := ParseMapping(indent);
      }
    }

    method ParseSequence(indent: nat) returns (r: Result<Value>)
      requires position < |lines|
      modifies this
      ensures |lines| == old(|lines|) && old(position) <= position <= |lines|
      ensures Agrees(B.ParseItems(read, old(Left()), indent, []), r, Left())
      decreases |lines| - position, |lines[position].content|, 2
    {
      var items: seq<Value> := [];
      while position < |lines| && lines[position].indent == indent && IsDash(lines[position].content)
        invariant |lines| == old(|lines|) && old(position) <= position <= |lines|
        invariant position == old(position) ==> lines == old(lines)
        invariant B.ParseItems(read, Left(), indent, items) == B.ParseItems(read, old(Left()), indent, [])
        decreases |lines| - position
      {
        var item := ParseItem(indent);
        if item.Err? {
          return Err(item.error);
        }
        items := items + [item.value];
      }
      return Ok(List(items));
    }

    method ParseItem(indent: nat) returns (r: Result<Value>)
      requires position < |lines| && IsDash(lines[position].content)
      modifies this
      ensures |lines| == old(|lines|) && old(position) <= position <= |lines|
      ensures r.Ok? ==> old(position) < position
      ensures Agrees(B.ParseItem(read, old(Left()), indent), r, Left())
      decreases |lines| - position, |lines[position].content|, 1
    {
      var rest := B.ItemText(lines[position].content);
      if rest == "" {
        position := position + 1;
        if position < |lines| && lines[position].indent > indent {
          r := Parse(lines[position].indent);
        } else {
          r := Ok(Null);
        }
      } else if !IsQuote(rest[0]) && SplitKey(rest).Some? {
        ghost var before := Left();
        lines := lines[position := B.Line(indent + 2, rest)];
        assert Left() == B.Rewritten(before, indent);
        r := Parse(indent + 2);
      } else {
        position := position + 1;
        var v := read(rest);
        r := if v.Some? then Ok(v.value) else Err(ValueError);
      }
    }

    method ParseMapping(indent: nat) returns (r: Result<Value>)
      requires position < |lines|
      modifies this
      ensures |lines| == old(|lines|) && old(position) <= position <= |lines|
      ensures Agrees(B.ParseEntries(read, old(Left()), indent, map[]), r, Left())
      decreases |lines| - position, |lines[position].content|, 2
    {
      var mapping: map<Key, Value> := map[];
      while position < |lines| && lines[position].indent == indent && !IsDash(lines[position].content)
        invariant |lines| == old(|lines|) && old(position) <= position <= |lines|
        invariant position == old(position) ==> lines == old(lines)
        invariant B.ParseEntries(read, Left(), indent, mapping) == B.ParseEntries(read, old(Left()), indent, map[])
        decreases |lines| - position
      {
        var key, value := ParseEntry(indent);
        if value.Err? {
          return Err(value.error);
        }
        mapping := mapping[key := value.value];
      }
      return Ok(Dict(mapping));
    }

    method ParseEntry(indent: nat) returns (key: Key, r: Result<Value>)
      requires position < |lines|
      modifies this
      ensures |lines| == old(|lines|) && old(position) <= position <= |lines|
      ensures r.Ok? ==> old(position) < position
      ensures match B.ParseEntry(read, old(Left()), indent)
              case Err(e) => r == Err(e)
              case Ok((k, v, left)) => key == k && r == Ok(v) && Left() == left
      decreases |lines| - position, |lines[position].content|, 1
    {
      key := NullKey;
      var parsed := SplitKey(lines[position].content);
      if parsed.None? {
        return key, Err(AssertionError);
      }
      var keyValue := read(parsed.value.0);
      if keyValue.None? {
        return key, Err(ValueError);
      }
      r := ParseValue(indent, parsed.value.1);
      if r.Ok? {
        match KeyOf(keyValue.value) {
          case None => r := Err(TypeError);
          case Some(k) => key := k;
        }
      }
    }

    method ParseValue(indent: nat, text: string) returns (r: Result<Value>)
      requires position < |lines|
      modifies this
      ensures |lines| == old(|lines|) && old(position) <= position <= |lines|
      ensures r.Ok? ==> old(position) < position
      ensures Agrees(B.ParseEntryValue(read, old(Left()), indent, text), r, Left())
      decreases |lines| - position, 0, 0
    {
      position := position + 1;
      if Strip(text) != "" {
        var v := read(text);
        r := if v.Some? then Ok(v.value) else Err(ValueError);
      } else if position < |lines|
             && (lines[position].indent > indent || (lines[position].indent == indent && IsDash(lines[position].content))) {
        r := Parse(lines[position].indent);
      } else {
        r := Ok(Null);
      }
    }
  }

  // The reader on a whole text.
  method MiniYaml(read: Reader, text: string) returns (r: Result<Value>)
    ensures r == D.MiniYaml(read, text)
  {
    var lines := D.Lines(text);
    if lines == [] {
      return Err(AssertionError);
    }
    if |lines| == 1 && SplitKey(lines[0].content).None? && !IsDash(lines[0].content) {
      var v := read(lines[0].content);
      return if v.Some? then Ok(v.value) else Err(ValueError);
    }
    var cursor := new Cursor(read, lines);
    r := cursor.Parse(lines[0].indent);
    if r.Ok? && cursor.position != |cursor.lines| {
      return Err(AssertionError);
    }
  }
}
