// Type-strict equality of trees, and the search for the first place where two
// trees differ. scripts/rust-port/go_observations_common.py
module Compare {
  import opened Wrappers
  import opened Trees

  // ---------------------------------------------------------------- type-strict equality

  // Python's == on floats: nothing equals NaN.
  predicate SameFloat(a: Float, b: Float) { a == b && !a.NaN? }

  predicate SameType<K>(a: Tree<K>, b: Tree<K>)
  {
    && a.Null? == b.Null? && a.Bool? == b.Bool? && a.Int? == b.Int? && a.Real? == b.Real?
    && a.Str? == b.Str? && a.List? == b.List? && a.Dict? == b.Dict?
  }

  predicate IsScalar<K>(a: Tree<K>) { !a.List? && !a.Dict? }

  // == on scalars of the same type.
  predicate SameScalar<K>(a: Tree<K>, b: Tree<K>)
    requires IsScalar(a) && SameType(a, b)
  {
    if a.Real? then SameFloat(a.f, b.f) else a == b
  }

  predicate StrictEq<K>(a: Tree<K>, b: Tree<K>)
    decreases a
  {
    && SameType(a, b)
    && match a
       case List(xs) => |xs| == |b.items| && forall i :: 0 <= i < |xs| ==> StrictEq(xs[i], b.items[i])
       case Dict(m) => m.Keys == b.entries.Keys && forall k :: k in m ==> StrictEq(m[k], b.entries[k])
       case _ => SameScalar(a, b)
  }

  predicate NaNFree<K>(a: Tree<K>)
    decreases a
  {
    match a
    case Real(f) => !f.NaN?
    case List(xs) => forall i :: 0 <= i < |xs| ==> NaNFree(xs[i])
    case Dict(m) => forall k :: k in m ==> NaNFree(m[k])
    case _ => true
  }

  // Type-strict equality is being the same tree, with no NaN anywhere in it.
  // So it is symmetric and transitive, and reflexive on the trees without NaN.
  lemma {:induction false} StrictEqIff<K>(a: Tree<K>, b: Tree<K>)
    ensures StrictEq(a, b) <==> a == b && NaNFree(a)
    decreases a
  {
    if SameType(a, b) {
      match a
      case List(xs) =>
        if |xs| == |b.items| {
          forall i | 0 <= i < |xs| ensures StrictEq(xs[i], b.items[i]) <==> xs[i] == b.items[i] && NaNFree(xs[i]) {
            StrictEqIff(xs[i], b.items[i]);
          }
          assert xs == b.items <==> forall i :: 0 <= i < |xs| ==> xs[i] == b.items[i];
        }
      case Dict(m) =>
        if m.Keys == b.entries.Keys {
          forall k | k in m ensures StrictEq(m[k], b.entries[k]) <==> m[k] == b.entries[k] && NaNFree(m[k]) {
            StrictEqIff(m[k], b.entries[k]);
          }
          assert m == b.entries <==> forall k :: k in m ==> m[k] == b.entries[k];
        }
      case _ =>
    }
  }

  // ---------------------------------------------------------------- first_difference

  datatype Where<K> = Member(key: K) | Element(index: nat)

  datatype Why = TypesDiffer | OneSided | LengthsDiffer | ValuesDiffer

  datatype Difference<K> = Difference(path: seq<Where<K>>, why: Why)

  // sorted() on a set of keys: every key once, in an order of its own.
  type Sorting<!K(==)> = set<K> -> seq<K>

  ghost predicate Sorts<K(!new)>(order: Sorting<K>)
  {
    forall s, k :: k in order(s) <==> k in s
  }

  function Below<K>(w: Where<K>, d: Option<Difference<K>>): Option<Difference<K>>
  {
    match d case None => None case Some(f) => Some(Difference([w] + f.path, f.why))
  }

  function FirstDifference<K>(order: Sorting<K>, a: Tree<K>, b: Tree<K>): Option<Difference<K>>
    decreases a, 1, 0
  {
    if !SameType(a, b) then Some(Difference([], TypesDiffer))
    else
      match a
      case Dict(m) => FirstInKeys(order, a, b, order(m.Keys + b.entries.Keys))
      case List(xs) =>
        if |xs| != |b.items| then Some(Difference([], LengthsDiffer)) else FirstInItems(order, a, b, 0)
      case _ => if SameScalar(a, b) then None else Some(Difference([], ValuesDiffer))
  }

  // The loop over the keys.
  function FirstInKeys<K>(order: Sorting<K>, a: Tree<K>, b: Tree<K>, keys: seq<K>): Option<Difference<K>>
    requires a.Dict? && b.Dict?
    decreases a, 0, |keys|
  {
    if keys == [] then None
    else
      var k := keys[0];
      if k !in a.entries || k !in b.entries then Some(Difference([Member(k)], OneSided))
      else
        match FirstDifference(order, a.entries[k], b.entries[k])
        case None => FirstInKeys(order, a, b, keys[1..])
        case Some(f) => Below(Member(k), Some(f))
  }

  // The loop over the elements.
  function FirstInItems<K>(order: Sorting<K>, a: Tree<K>, b: Tree<K>, i: nat): Option<Difference<K>>
    requires a.List? && b.List? && |a.items| == |b.items|
    decreases a, 0, |a.items| - i
  {
    if i >= |a.items| then None
    else
      match FirstDifference(order, a.items[i], b.items[i])
      case None => FirstInItems(order, a, b, i + 1)
      case Some(f) => Below(Element(i), Some(f))
  }

  // None means the same trees.
  lemma {:induction false} NoneIffEqual<K(!new)>(order: Sorting<K>, a: Tree<K>, b: Tree<K>)
    requires Sorts(order)
    ensures FirstDifference(order, a, b) == None <==> StrictEq(a, b)
    decreases a, 1, 0
  {
    if SameType(a, b) {
      match a
      case Dict(m) =>
        var keys := order(m.Keys + b.entries.Keys);
        NoneInKeysIff(order, a, b, keys);
        assert forall k :: k in keys <==> k in m.Keys + b.entries.Keys;
      case List(xs) =>
        if |xs| == |b.items| {
          NoneInItemsIff(order, a, b, 0);
        }
      case _ =>
    }
  }

  lemma {:induction false} NoneInKeysIff<K(!new)>(order: Sorting<K>, a: Tree<K>, b: Tree<K>, keys: seq<K>)
    requires Sorts(order) && a.Dict? && b.Dict?
    ensures FirstInKeys(order, a, b, keys) == None <==>
      forall k :: k in keys ==> k in a.entries && k in b.entries && StrictEq(a.entries[k], b.entries[k])
    decreases a, 0, |keys|
  {
    if keys != [] {
      var k := keys[0];
      if k in a.entries && k in b.entries {
        NoneIffEqual(order, a.entries[k], b.entries[k]);
      }
      NoneInKeysIff(order, a, b, keys[1..]);
      assert forall x :: x in keys <==> x == k || x in keys[1..];
    }
  }

  lemma {:induction false} NoneInItemsIff<K(!new)>(order: Sorting<K>, a: Tree<K>, b: Tree<K>, i: nat)
    requires Sorts(order) && a.List? && b.List? && |a.items| == |b.items|
    ensures FirstInItems(order, a, b, i) == None <==>
      forall j :: i <= j < |a.items| ==> StrictEq(a.items[j], b.items[j])
    decreases a, 0, |a.items| - i
  {
    if i < |a.items| {
      NoneIffEqual(order, a.items[i], b.items[i]);
      NoneInItemsIff(order, a, b, i + 1);
    }
  }

  // A tree that holds NaN differs from itself.
  lemma {:induction false} NaNDiffers<K(!new)>(order: Sorting<K>)
    ensures FirstDifference(order, List([Real(NaN)]), List([Real(NaN)])) == Some(Difference([Element(0)], ValuesDiffer))
  {
    var a: Tree<K> := List([Real(NaN)]);
    assert FirstDifference(order, a.items[0], a.items[0]) == Some(Difference([], ValuesDiffer));
    assert FirstInItems(order, a, a, 0) == Below(Element(0), Some(Difference([], ValuesDiffer)));
    var path: seq<Where<K>> := [Element(0)];
    assert path + [] == path;
  }

  // A difference that is really there, and the first of its siblings: along
  // the path both sides agree in kind, everything before it is equal, and at
  // its end they differ as it says.
  ghost predicate Genuine<K>(order: Sorting<K>, a: Tree<K>, b: Tree<K>, path: seq<Where<K>>, why: Why)
    decreases |path|
  {
    if path == [] then
      match why
      case TypesDiffer => !SameType(a, b)
      case LengthsDiffer => a.List? && b.List? && |a.items| != |b.items|
      case ValuesDiffer => SameType(a, b) && IsScalar(a) && !SameScalar(a, b)
      case OneSided => false
    else
      match path[0]
      case Member(k) =>
        && a.Dict? && b.Dict?
        && FirstAmong(order, a, b, k)
        && if why == OneSided && |path| == 1 then (k in a.entries) != (k in b.entries)
           else k in a.entries && k in b.entries && Genuine(order, a.entries[k], b.entries[k], path[1..], why)
      case Element(i) =>
        && a.List? && b.List? && i < |a.items| == |b.items|
        && (forall j :: 0 <= j < i ==> StrictEq(a.items[j], b.items[j]))
        && Genuine(order, a.items[i], b.items[i], path[1..], why)
  }

  // Every key before k, in the order of the comparison, is equal on both sides.
  ghost predicate FirstAmong<K>(order: Sorting<K>, a: Tree<K>, b: Tree<K>, k: K)
    requires a.Dict? && b.Dict?
  {
    var keys := order(a.entries.Keys + b.entries.Keys);
    exists n :: 0 <= n < |keys| && keys[n] == k && EqualBefore(a, b, keys, n)
  }

  ghost predicate EqualBefore<K>(a: Tree<K>, b: Tree<K>, keys: seq<K>, n: nat)
    requires a.Dict? && b.Dict? && n <= |keys|
  {
    forall m :: 0 <= m < n ==>
      keys[m] in a.entries && keys[m] in b.entries && StrictEq(a.entries[keys[m]], b.entries[keys[m]])
  }

  // What is reported really differs, and nothing before it does.
  lemma {:induction false} ReportedIsReal<K(!new)>(order: Sorting<K>, a: Tree<K>, b: Tree<K>)
    requires Sorts(order) && FirstDifference(order, a, b).Some?
    ensures var d := FirstDifference(order, a, b).value; Genuine(order, a, b, d.path, d.why)
    decreases a, 1, 0
  {
    if SameType(a, b) {
      match a
      case Dict(m) =>
        var keys := order(m.Keys + b.entries.Keys);
        assert keys[0..] == keys;
        RealInKeys(order, a, b, 0);
      case List(xs) =>
        if |xs| == |b.items| {
          RealInItems(order, a, b, 0);
        }
      case _ =>
    }
  }

  lemma {:induction false} RealInKeys<K(!new)>(order: Sorting<K>, a: Tree<K>, b: Tree<K>, n: nat)
    requires Sorts(order) && a.Dict? && b.Dict?
    requires n <= |order(a.entries.Keys + b.entries.Keys)|
    requires EqualBefore(a, b, order(a.entries.Keys + b.entries.Keys), n)
    requires FirstInKeys(order, a, b, order(a.entries.Keys + b.entries.Keys)[n..]).Some?
    ensures var d := FirstInKeys(order, a, b, order(a.entries.Keys + b.entries.Keys)[n..]).value;
            Genuine(order, a, b, d.path, d.why)
    decreases a, 0, |order(a.entries.Keys + b.entries.Keys)| - n
  {
    var keys := order(a.entries.Keys + b.entries.Keys);
    var k := keys[n];
    assert keys[n..][0] == k && keys[n..][1..] == keys[n + 1..];
    assert k in keys;
    assert FirstAmong(order, a, b, k);
    if k in a.entries && k in b.entries {
      var below := FirstDifference(order, a.entries[k], b.entries[k]);
      NoneIffEqual(order, a.entries[k], b.entries[k]);
      if below.None? {
        RealInKeys(order, a, b, n + 1);
      } else {
        ReportedIsReal(order, a.entries[k], b.entries[k]);
        RealBelow(order, a, b, Member(k), below.value);
      }
    }
  }

  lemma {:induction false} RealInItems<K(!new)>(order: Sorting<K>, a: Tree<K>, b: Tree<K>, i: nat)
    requires Sorts(order) && a.List? && b.List? && |a.items| == |b.items| && i <= |a.items|
    requires forall j :: 0 <= j < i ==> StrictEq(a.items[j], b.items[j])
    requires FirstInItems(order, a, b, i).Some?
    ensures var d := FirstInItems(order, a, b, i).value; Genuine(order, a, b, d.path, d.why)
    decreases a, 0, |a.items| - i
  {
    var below := FirstDifference(order, a.items[i], b.items[i]);
    NoneIffEqual(order, a.items[i], b.items[i]);
    if below.None? {
      RealInItems(order, a, b, i + 1);
    } else {
      ReportedIsReal(order, a.items[i], b.items[i]);
      RealBelow(order, a, b, Element(i), below.value);
    }
  }

  // A real difference below is a real difference here.
  lemma {:induction false} RealBelow<K(!new)>(order: Sorting<K>, a: Tree<K>, b: Tree<K>, w: Where<K>, d: Difference<K>)
    requires match w
             case Member(k) => a.Dict? && b.Dict? && k in a.entries && k in b.entries && FirstAmong(order, a, b, k)
                               && Genuine(order, a.entries[k], b.entries[k], d.path, d.why)
             case Element(i) => a.List? && b.List? && i < |a.items| == |b.items|
                                && (forall j :: 0 <= j < i ==> StrictEq(a.items[j], b.items[j]))
                                && Genuine(order, a.items[i], b.items[i], d.path, d.why)
    ensures Genuine(order, a, b, [w] + d.path, d.why)
  {
    assert ([w] + d.path)[1..] == d.path;
  }
}
