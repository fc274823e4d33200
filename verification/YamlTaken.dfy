// Which lines the block parser takes, and that it never goes back to a key:
// scripts/rust-port/device_list_differential.py
module YamlTaken {
  import opened Wrappers
  import opened Trees
  import opened YamlScalars
  import opened BlockYaml
  import opened YamlLayouts

  // The lines taken are the first ones, and none is indented by less than d.
  predicate Took(ls: seq<Line>, rest: seq<Line>, d: nat)
  {
    && |rest| <= |ls| && rest == ls[|ls| - |rest|..]
    && forall j :: 0 <= j < |ls| - |rest| ==> ls[j].indent >= d
  }

  lemma {:induction false} TookOne(ls: seq<Line>, d: nat)
    requires ls != [] && ls[0].indent >= d
    ensures Took(ls, ls[1..], d)
  {
  }

  lemma {:induction false} TookUnder(ls: seq<Line>, rest: seq<Line>, d: nat, e: nat)
    requires ls != [] && ls[0].indent >= d && e >= d && Took(ls[1..], rest, e)
    ensures Took(ls, rest, d)
  {
    forall j | 0 <= j < |ls| - |rest| ensures ls[j].indent >= d {
      assert j > 0 ==> ls[j] == ls[1..][j - 1];
    }
  }

  lemma {:induction false} TookRewritten(ls: seq<Line>, line: Line, rest: seq<Line>, d: nat, e: nat)
    requires ls != [] && ls[0].indent >= d && e >= d && Took([line] + ls[1..], rest, e) && |rest| < |ls|
    ensures Took(ls, rest, d)
  {
    var moved := [line] + ls[1..];
    assert forall j :: 0 < j < |ls| ==> moved[j] == ls[j];
    assert rest == ls[|ls| - |rest|..];
  }

  lemma {:induction false} TookMore(ls: seq<Line>, mid: seq<Line>, rest: seq<Line>, d: nat)
    requires Took(ls, mid, d) && Took(mid, rest, d)
    ensures Took(ls, rest, d)
  {
    var n := |ls| - |mid|;
    forall j | 0 <= j < |ls| - |rest| ensures ls[j].indent >= d {
      assert j >= n ==> ls[j] == mid[j - n];
    }
  }

  lemma {:induction false} ParseTakes(rd: Reader, ls: seq<Line>, d: nat)
    requires ls != []
    ensures var r := Parse(rd, ls, d); r.Ok? ==> Took(ls, r.value.1, d)
    decreases |ls|, |ls[0].content|, 3
  {
    if IsDash(ls[0].content) {
      ItemsTake(rd, ls, d, []);
    } else {
      EntriesTake(rd, ls, d, map[]);
    }
  }

  lemma {:induction false} ItemsTake(rd: Reader, ls: seq<Line>, d: nat, acc: seq<Value>)
    ensures var r := ParseItems(rd, ls, d, acc); r.Ok? ==> Took(ls, r.value.1, d)
    decreases |ls|, if ls == [] then 0 else |ls[0].content|, 2
  {
    if StartsItem(d, ls) {
      ItemTakes(rd, ls, d);
      match ParseItem(rd, ls, d)
      case Err(_) =>
      case Ok((v, mid)) =>
        ItemsTake(rd, mid, d, acc + [v]);
        var r := ParseItems(rd, mid, d, acc + [v]);
        if r.Ok? {
          TookMore(ls, mid, r.value.1, d);
        }
    }
  }

  lemma {:induction false} ItemTakes(rd: Reader, ls: seq<Line>, d: nat)
    requires StartsItem(d, ls)
    ensures var r := ParseItem(rd, ls, d); r.Ok? ==> Took(ls, r.value.1, d)
    decreases |ls|, |ls[0].content|, 0
  {
    var text := ItemText(ls[0].content);
    TookOne(ls, d);
    if text == "" {
      if |ls| > 1 && ls[1].indent > d {
        ParseTakes(rd, ls[1..], ls[1].indent);
        var r := Parse(rd, ls[1..], ls[1].indent);
        if r.Ok? {
          TookUnder(ls, r.value.1, d, ls[1].indent);
        }
      }
    } else if !IsQuote(text[0]) && SplitKey(text).Some? {
      var moved := Rewritten(ls, d);
      ParseTakes(rd, moved, d + 2);
      var r := Parse(rd, moved, d + 2);
      if r.Ok? {
        TookRewritten(ls, moved[0], r.value.1, d, d + 2);
      }
    }
  }

  lemma {:induction false} EntriesTake(rd: Reader, ls: seq<Line>, d: nat, acc: map<Key, Value>)
    ensures var r := ParseEntries(rd, ls, d, acc); r.Ok? ==> Took(ls, r.value.1, d)
    decreases |ls|, if ls == [] then 0 else |ls[0].content|, 2
  {
    if StartsEntry(d, ls) {
      EntryTakes(rd, ls, d);
      match ParseEntry(rd, ls, d)
      case Err(_) =>
      case Ok((k, v, mid)) =>
        EntriesTake(rd, mid, d, acc[k := v]);
        var r := ParseEntries(rd, mid, d, acc[k := v]);
        if r.Ok? {
          TookMore(ls, mid, r.value.1, d);
        }
    }
  }

  lemma {:induction false} EntryTakes(rd: Reader, ls: seq<Line>, d: nat)
    requires StartsEntry(d, ls)
    ensures var r := ParseEntry(rd, ls, d); r.Ok? ==> Took(ls, r.value.2, d)
    decreases |ls|, |ls[0].content|, 1
  {
    TookOne(ls, d);
    if |ls| > 1 && ls[1].indent >= d {
      ParseTakes(rd, ls[1..], ls[1].indent);
      var r := Parse(rd, ls[1..], ls[1].indent);
      if r.Ok? {
        TookUnder(ls, r.value.1, d, ls[1].indent);
      }
    }
  }

  // ---------------------------------------------------------------- keys

  // The line does not set the key in a mapping at indent d.
  predicate LeavesKey(rd: Reader, l: Line, d: nat, k: Key)
  {
    l.indent == d && !IsDash(l.content) && SplitKey(l.content).Some? ==> KeyOr(rd, SplitKey(l.content).value.0) != k
  }

  predicate LeaveKey(rd: Reader, ls: seq<Line>, d: nat, k: Key)
  {
    forall j :: 0 <= j < |ls| ==> LeavesKey(rd, ls[j], d, k)
  }

  // A key that no line of the mapping sets again keeps its value.
  lemma {:induction false} KeyStays(rd: Reader, ls: seq<Line>, n: nat, d: nat, acc: map<Key, Value>, k: Key)
    requires n <= |ls| && AfterFields(d, ls[n..]) && LeaveKey(rd, ls[..n], d, k) && k in acc
    ensures var r := ParseEntries(rd, ls, d, acc);
            r.Ok? ==> r.value.0.Dict? && k in r.value.0.entries && r.value.0.entries[k] == acc[k]
    decreases |ls|
  {
    if StartsEntry(d, ls) {
      match ParseEntry(rd, ls, d)
      case Err(_) =>
      case Ok((key, v, rest)) =>
        EntryTakes(rd, ls, d);
        StaysInFront(rd, ls, rest, n, d, k);
        assert LeavesKey(rd, ls[..n][0], d, k);
        KeyStays(rd, rest, n - (|ls| - |rest|), d, acc[key := v], k);
    }
  }

  lemma {:induction false} StaysInFront(rd: Reader, ls: seq<Line>, rest: seq<Line>, n: nat, d: nat, k: Key)
    requires Took(ls, rest, d) && n <= |ls| && AfterFields(d, ls[n..]) && LeaveKey(rd, ls[..n], d, k)
    ensures var taken := |ls| - |rest|;
            taken <= n && rest[n - taken..] == ls[n..] && LeaveKey(rd, rest[..n - taken], d, k)
  {
    var taken := |ls| - |rest|;
    if n < |ls| {
      assert ls[n..][0] == ls[n];
    }
    var front := rest[..n - taken];
    forall j | 0 <= j < |front| ensures LeavesKey(rd, front[j], d, k) {
      assert LeavesKey(rd, ls[..n][j + taken], d, k);
    }
  }
}
