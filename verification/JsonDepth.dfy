// The linear scanner that measures how deeply a JSON text is nested:
// `json_nesting_depth` of scripts/rust-port/http_token_contract.py.
module JsonDepth {

  // ---------------------------------------------------------------- the scanner

  datatype State = State(depth: nat, deepest: nat, inString: bool, escaped: bool)

  const START: State := State(0, 0, false, false)

  function Max(a: nat, b: nat): nat { if a > b then a else b }

  function Step(st: State, c: char): State
  {
    if st.inString then
      if st.escaped then st.(escaped := false)
      else if c == '\\' then st.(escaped := true)
      else if c == '\"' then st.(inString := false)
      else st
    else if c == '\"' then st.(inString := true)
    else if c == '[' || c == '{' then st.(depth := st.depth + 1, deepest := Max(st.deepest, st.depth + 1))
    else if c == ']' || c == '}' then st.(depth := if st.depth > 0 then st.depth - 1 else 0)
    else st
  }

  function Scan(st: State, s: string): State
    decreases |s|
  {
    if s == "" then st else Scan(Step(st, s[0]), s[1..])
  }

  // The scanner as it runs.
  method NestingDepth(raw: string) returns (r: nat)
    ensures r == Scan(START, raw).deepest
  {
    var depth, deepest := 0, 0;
    var inString, escaped := false, false;
    for i := 0 to |raw|
      invariant depth >= 0 && deepest >= 0
      invariant Scan(State(depth, deepest, inString, escaped), raw[i..]) == Scan(START, raw)
    {
      var byte := raw[i];
      assert raw[i..][0] == byte && raw[i..][1..] == raw[i + 1..];
      if inString {
        if escaped {
          escaped := false;
        } else if byte == '\\' {
          escaped := true;
        } else if byte == '\"' {
          inString := false;
        }
      } else if byte == '\"' {
        inString := true;
      } else if byte == '[' || byte == '{' {
        depth := depth + 1;
        deepest := Max(deepest, depth);
      } else if byte == ']' || byte == '}' {
        depth := if depth > 0 then depth - 1 else 0;
      }
    }
    assert raw[|raw|..] == "";
    return deepest;
  }

  // ---------------------------------------------------------------- JSON texts

  // A character of a string: as it stands, or after a backslash.
  datatype Piece = Raw(c: char) | Escaped(c: char)

  // A JSON text with every choice of white space and escapes. An atom is a
  // number, true, false or null.
  datatype Json =
    | Atom(text: string)
    | Str(pieces: seq<Piece>)
    | Array(pad: string, items: seq<Item>)
    | Object(pad: string, members: seq<Member>)

  datatype Item = Item(before: string, value: Json, after: string)

  datatype Member = Member(before: string, key: seq<Piece>, gap: string, item: Item)

  // Text that means nothing to the scanner outside strings: white space,
  // atoms, commas and colons.
  predicate Neutral(s: string)
  {
    forall k :: 0 <= k < |s| ==> s[k] != '\"' && s[k] != '[' && s[k] != ']' && s[k] != '{' && s[k] != '}'
  }

  predicate WfPieces(ps: seq<Piece>)
  {
    forall k :: 0 <= k < |ps| ==> ps[k].Escaped? || (ps[k].c != '\"' && ps[k].c != '\\')
  }

  predicate Wf(j: Json)
    decreases j
  {
    match j
    case Atom(text) => Neutral(text)
    case Str(pieces) => WfPieces(pieces)
    case Array(pad, items) => Neutral(pad) && forall i :: 0 <= i < |items| ==> WfItem(items[i])
    case Object(pad, members) => Neutral(pad) && forall i :: 0 <= i < |members| ==> WfMember(members[i])
  }

  predicate WfItem(item: Item)
    decreases item
  {
    Neutral(item.before) && Wf(item.value) && Neutral(item.after)
  }

  predicate WfMember(m: Member)
    decreases m
  {
    Neutral(m.before) && WfPieces(m.key) && Neutral(m.gap) && WfItem(m.item)
  }

  function PrintPieces(ps: seq<Piece>): string
  {
    if ps == [] then ""
    else (if ps[0].Escaped? then ['\\', ps[0].c] else [ps[0].c]) + PrintPieces(ps[1..])
  }

  function PrintStr(ps: seq<Piece>): string { "\"" + PrintPieces(ps) + "\"" }

  function Print(j: Json): string
    decreases j
  {
    match j
    case Atom(text) => text
    case Str(pieces) => PrintStr(pieces)
    case Array(pad, items) => "[" + pad + PrintItems(items) + "]"
    case Object(pad, members) => "{" + pad + PrintMembers(members) + "}"
  }

  function PrintItem(item: Item): string
    decreases item
  {
    item.before + Print(item.value) + item.after
  }

  // A comma between the items and none after the last.
  function PrintItems(items: seq<Item>): string
    decreases items
  {
    if items == [] then ""
    else PrintItem(items[0]) + (if |items| > 1 then "," else "") + PrintItems(items[1..])
  }

  function PrintMember(m: Member): string
    decreases m
  {
    m.before + PrintStr(m.key) + m.gap + ":" + PrintItem(m.item)
  }

  function PrintMembers(members: seq<Member>): string
    decreases members
  {
    if members == [] then ""
    else PrintMember(members[0]) + (if |members| > 1 then "," else "") + PrintMembers(members[1..])
  }

  // ---------------------------------------------------------------- nesting depth of the value

  function Depth(j: Json): nat
    decreases j
  {
    match j
    case Atom(_) => 0
    case Str(_) => 0
    case Array(_, items) => 1 + DepthItems(items)
    case Object(_, members) => 1 + DepthMembers(members)
  }

  function DepthItem(item: Item): nat
    decreases item
  {
    Depth(item.value)
  }

  function DepthItems(items: seq<Item>): nat
    decreases items
  {
    if items == [] then 0 else Max(DepthItem(items[0]), DepthItems(items[1..]))
  }

  function DepthMember(m: Member): nat
    decreases m
  {
    DepthItem(m.item)
  }

  function DepthMembers(members: seq<Member>): nat
    decreases members
  {
    if members == [] then 0 else Max(DepthMember(members[0]), DepthMembers(members[1..]))
  }

  // ---------------------------------------------------------------- the scanner on printed text

  lemma {:induction false} ScanConcat(st: State, a: string, b: string)
    ensures Scan(st, a + b) == Scan(Scan(st, a), b)
    decreases |a|
  {
    if a == "" {
      assert a + b == b;
    } else {
      assert (a + b)[1..] == a[1..] + b;
      ScanConcat(Step(st, a[0]), a[1..], b);
    }
  }

  predicate Outside(st: State) { !st.inString && !st.escaped }

  lemma {:induction false} ScanNeutral(st: State, s: string)
    requires Outside(st) && Neutral(s)
    ensures Scan(st, s) == st
    decreases |s|
  {
    if s != "" {
      ScanNeutral(st, s[1..]);
    }
  }

  lemma {:induction false} ScanOne(st: State, c: char)
    ensures Scan(st, [c]) == Step(st, c)
  {
    assert [c][1..] == "";
  }

  lemma {:induction false} ScanTwo(st: State, a: char, b: char)
    ensures Scan(st, [a, b]) == Step(Step(st, a), b)
  {
    assert [a, b][1..] == [b];
    ScanOne(Step(st, a), b);
  }

  // Whatever stands in a string, its quotes included or escaped, the scanner
  // stays in it.
  lemma {:induction false} ScanPieces(st: State, ps: seq<Piece>)
    requires st.inString && !st.escaped && WfPieces(ps)
    ensures Scan(st, PrintPieces(ps)) == st
    decreases |ps|
  {
    if ps != [] {
      var first := if ps[0].Escaped? then ['\\', ps[0].c] else [ps[0].c];
      ScanConcat(st, first, PrintPieces(ps[1..]));
      if ps[0].Escaped? {
        ScanTwo(st, '\\', ps[0].c);
      } else {
        ScanOne(st, ps[0].c);
      }
      ScanPieces(st, ps[1..]);
    }
  }

  lemma {:induction false} ScanStr(st: State, ps: seq<Piece>)
    requires Outside(st) && WfPieces(ps)
    ensures Scan(st, PrintStr(ps)) == st
  {
    var within := st.(inString := true);
    ScanConcat(st, "\"" + PrintPieces(ps), "\"");
    ScanConcat(st, "\"", PrintPieces(ps));
    ScanOne(st, '\"');
    ScanPieces(within, ps);
    ScanOne(within, '\"');
  }

  // The scanner after a text of nesting depth d: as before, and it has seen
  // that depth.
  function Saw(st: State, d: nat): State { st.(deepest := Max(st.deepest, st.depth + d)) }

  predicate Sane(st: State) { Outside(st) && st.depth <= st.deepest }

  lemma {:induction false} ScanValue(st: State, j: Json)
    requires Sane(st) && Wf(j)
    ensures Scan(st, Print(j)) == Saw(st, Depth(j))
    decreases j, 1
  {
    match j
    case Atom(text) => ScanNeutral(st, text);
    case Str(pieces) => ScanStr(st, pieces);
    case Array(pad, items) =>
      var within := Step(st, '[');
      ScanItems(within, items);
      ScanBracketed(st, '[', pad, PrintItems(items), ']', DepthItems(items));
    case Object(pad, members) =>
      var within := Step(st, '{');
      ScanMembers(within, members);
      ScanBracketed(st, '{', pad, PrintMembers(members), '}', DepthMembers(members));
  }

  // Brackets around a text of depth d make it one deeper.
  lemma {:induction false} ScanBracketed(st: State, open: char, pad: string, inner: string, close: char, d: nat)
    requires Sane(st) && Neutral(pad)
    requires (open == '[' && close == ']') || (open == '{' && close == '}')
    requires Scan(Step(st, open), inner) == Saw(Step(st, open), d)
    ensures Scan(st, [open] + pad + inner + [close]) == Saw(st, 1 + d)
  {
    ScanConcat(st, [open] + pad + inner, [close]);
    ScanConcat(st, [open] + pad, inner);
    ScanConcat(st, [open], pad);
    ScanOne(st, open);
    ScanNeutral(Step(st, open), pad);
    ScanOne(Saw(Step(st, open), d), close);
  }

  lemma {:induction false} ScanItem(st: State, item: Item)
    requires Sane(st) && WfItem(item)
    ensures Scan(st, PrintItem(item)) == Saw(st, DepthItem(item))
    decreases item, 0
  {
    ScanConcat(st, item.before + Print(item.value), item.after);
    ScanConcat(st, item.before, Print(item.value));
    ScanNeutral(st, item.before);
    ScanValue(st, item.value);
    ScanNeutral(Saw(st, DepthItem(item)), item.after);
  }

  lemma {:induction false} ScanItems(st: State, items: seq<Item>)
    requires Sane(st) && forall i :: 0 <= i < |items| ==> WfItem(items[i])
    ensures Scan(st, PrintItems(items)) == Saw(st, DepthItems(items))
    decreases items, 0
  {
    if items != [] {
      var comma := if |items| > 1 then "," else "";
      ScanItem(st, items[0]);
      ScanItems(Saw(st, DepthItem(items[0])), items[1..]);
      ScanListed(st, PrintItem(items[0]), comma, PrintItems(items[1..]), DepthItem(items[0]), DepthItems(items[1..]));
    }
  }

  // Texts one after the other are as deep as the deeper of them.
  lemma {:induction false} ScanListed(st: State, first: string, comma: string, rest: string, d: nat, e: nat)
    requires Sane(st) && Neutral(comma)
    requires Scan(st, first) == Saw(st, d) && Scan(Saw(st, d), rest) == Saw(Saw(st, d), e)
    ensures Scan(st, first + comma + rest) == Saw(st, Max(d, e))
  {
    ScanConcat(st, first + comma, rest);
    ScanConcat(st, first, comma);
    ScanNeutral(Saw(st, d), comma);
  }

  lemma {:induction false} ScanMember(st: State, m: Member)
    requires Sane(st) && WfMember(m)
    ensures Scan(st, PrintMember(m)) == Saw(st, DepthMember(m))
    decreases m, 0
  {
    var head := m.before + PrintStr(m.key);
    ScanConcat(st, head + m.gap + ":", PrintItem(m.item));
    ScanConcat(st, head + m.gap, ":");
    ScanConcat(st, head, m.gap);
    ScanConcat(st, m.before, PrintStr(m.key));
    ScanNeutral(st, m.before);
    ScanStr(st, m.key);
    ScanNeutral(st, m.gap);
    ScanNeutral(st, ":");
    ScanItem(st, m.item);
  }

  lemma {:induction false} ScanMembers(st: State, members: seq<Member>)
    requires Sane(st) && forall i :: 0 <= i < |members| ==> WfMember(members[i])
    ensures Scan(st, PrintMembers(members)) == Saw(st, DepthMembers(members))
    decreases members, 0
  {
    if members != [] {
      var comma := if |members| > 1 then "," else "";
      ScanMember(st, members[0]);
      ScanMembers(Saw(st, DepthMember(members[0])), members[1..]);
      ScanListed(st, PrintMember(members[0]), comma, PrintMembers(members[1..]),
                 DepthMember(members[0]), DepthMembers(members[1..]));
    }
  }

  // On every serialisation of every value, with any white space around it, the
  // scanner returns the nesting depth of the value and ends outside strings.
  lemma {:induction false} ScanMeasuresDepth(before: string, j: Json, after: string)
    requires Neutral(before) && Wf(j) && Neutral(after)
    ensures Scan(START, before + Print(j) + after) == State(0, Depth(j), false, false)
  {
    ScanItem(START, Item(before, j, after));
  }
}
