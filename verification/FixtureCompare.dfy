// Comparing a captured fixture with the one on record, apart from the fields
// that name the capture itself. scripts/rust-port/mcp_fixture_contract.py
module FixtureCompare {
  import opened Wrappers
  import opened Trees
  import opened Compare
  import Numerals

  type Json = Tree<string>

  const IDENTITY_KEYS := {"commit", "commit_sha", "source_hash", "source_digest", "generator_hash", "generator_digest"}

  const ORACLE := "/oracle"

  // The values that are not compared, by the path of the object they are in.
  predicate Skipped(path: string, key: string)
  {
    (path == ORACLE && key in IDENTITY_KEYS) || (path == "" && key == "generator_digest")
  }

  // The recursive comparison: whether it returns without raising.
  predicate Accepts(a: Json, b: Json, path: string)
    decreases a
  {
    && SameType(a, b)
    && match a
       case Dict(m) =>
         && m.Keys == b.entries.Keys
         && forall k :: k in m && !Skipped(path, k) ==> Accepts(m[k], b.entries[k], path + "/" + k)
       case List(xs) =>
         && |xs| == |b.items|
         && forall i :: 0 <= i < |xs| ==> Accepts(xs[i], b.items[i], path + "/" + Numerals.Digits(i, 10))
       case _ => SameScalar(a, b)
  }

  // ---------------------------------------------------------------- what it decides

  // An object with the values of the given keys blanked, the keys kept.
  function Blanked(m: map<string, Json>, keys: set<string>): (r: map<string, Json>)
    ensures r.Keys == m.Keys
  {
    map k | k in m :: if k in keys then Null else m[k]
  }

  // A root value at the end of the path of a root key: the identity of the
  // oracle is blanked.
  function ErasedAt(key: string, t: Json): Json
  {
    if key == "oracle" && t.Dict? then Dict(Blanked(t.entries, IDENTITY_KEYS)) else t
  }

  function ErasedValues(m: map<string, Json>): (r: map<string, Json>)
    ensures r.Keys == m.Keys
  {
    map k | k in m :: ErasedAt(k, m[k])
  }

  // A fixture without its identity.
  function Erased(t: Json): Json
  {
    if t.Dict? then Dict(Blanked(ErasedValues(t.entries), {"generator_digest"})) else t
  }

  function Slashes(s: string): nat
  {
    if s == "" then 0 else (if s[0] == '/' then 1 else 0) + Slashes(s[1..])
  }

  lemma {:induction false} SlashesAdd(s: string, t: string)
    ensures Slashes(s + t) == Slashes(s) + Slashes(t)
  {
    if s == "" {
      assert s + t == t;
    } else {
      assert (s + t)[1..] == s[1..] + t;
      SlashesAdd(s[1..], t);
    }
  }

  // A path below a root value: it is neither the root's nor the oracle's, and
  // no longer path is.
  predicate Inside(path: string)
  {
    Slashes(path) > 0 && path != ORACLE
  }

  lemma {:induction false} OneSlash(tail: string)
    ensures Slashes("/" + tail) == 1 + Slashes(tail)
  {
    assert ("/" + tail)[1..] == tail;
  }

  lemma {:induction false} OracleHasOneSlash()
    ensures Slashes(ORACLE) == 1
  {
    assert ORACLE == "/" + "oracle";
    OneSlash("oracle");
    assert "oracle"[1..] == "racle" && "racle"[1..] == "acle" && "acle"[1..] == "cle";
    assert "cle"[1..] == "le" && "le"[1..] == "e" && "e"[1..] == "";
    assert Slashes("cle") == 0;
  }

  lemma {:induction false} StaysInside(path: string, name: string)
    requires Slashes(path) > 0
    ensures Inside(path + "/" + name)
  {
    assert path + "/" + name == path + ("/" + name);
    SlashesAdd(path, "/" + name);
    OneSlash(name);
    OracleHasOneSlash();
  }

  // Nothing is skipped inside.
  lemma {:induction false} StrictInside(a: Json, b: Json, path: string)
    requires Inside(path)
    ensures Accepts(a, b, path) <==> StrictEq(a, b)
    decreases a
  {
    if SameType(a, b) {
      match a
      case Dict(m) =>
        if m.Keys == b.entries.Keys {
          forall k | k in m ensures Accepts(m[k], b.entries[k], path + "/" + k) <==> StrictEq(m[k], b.entries[k]) {
            StaysInside(path, k);
            StrictInside(m[k], b.entries[k], path + "/" + k);
          }
          assert forall k :: k in m ==> !Skipped(path, k);
        }
      case List(xs) =>
        if |xs| == |b.items| {
          forall i | 0 <= i < |xs|
            ensures Accepts(xs[i], b.items[i], path + "/" + Numerals.Digits(i, 10)) <==> StrictEq(xs[i], b.items[i])
          {
            StaysInside(path, Numerals.Digits(i, 10));
            StrictInside(xs[i], b.items[i], path + "/" + Numerals.Digits(i, 10));
          }
        }
      case _ =>
    }
  }

  // The oracle's path belongs to no root key but "oracle".
  lemma {:induction false} RootPath(key: string)
    ensures "" + "/" + key == "/" + key
    ensures Inside("/" + key) <==> key != "oracle"
  {
    OneSlash(key);
    assert "" + "/" + key == "/" + key;
    assert ("/" + key)[1..] == key && ORACLE[1..] == "oracle";
  }

  // The root value of one key.
  lemma {:induction false} RootValueIff(key: string, a: Json, b: Json)
    ensures Accepts(a, b, "" + "/" + key) <==> StrictEq(ErasedAt(key, a), ErasedAt(key, b))
  {
    RootPath(key);
    if key != "oracle" {
      StrictInside(a, b, "/" + key);
    } else if a.Dict? && b.Dict? && a.entries.Keys == b.entries.Keys {
      OracleIff(a.entries, b.entries);
    } else if a.List? && b.List? {
      OracleListIff(a.items, b.items);
    }
  }

  lemma {:induction false} OracleIff(m: map<string, Json>, n: map<string, Json>)
    requires m.Keys == n.Keys
    ensures Accepts(Dict(m), Dict(n), ORACLE)
        <==> StrictEq(Dict(Blanked(m, IDENTITY_KEYS)), Dict(Blanked(n, IDENTITY_KEYS)))
  {
    OracleHasOneSlash();
    forall k | k in m ensures Accepts(m[k], n[k], ORACLE + "/" + k) <==> StrictEq(m[k], n[k]) {
      StaysInside(ORACLE, k);
      StrictInside(m[k], n[k], ORACLE + "/" + k);
    }
    BlankedIff(m, n, IDENTITY_KEYS);
  }

  lemma {:induction false} OracleListIff(xs: seq<Json>, ys: seq<Json>)
    ensures Accepts(List(xs), List(ys), ORACLE) <==> StrictEq(List(xs), List(ys))
  {
    if |xs| == |ys| {
      OracleHasOneSlash();
      forall i | 0 <= i < |xs|
        ensures Accepts(xs[i], ys[i], ORACLE + "/" + Numerals.Digits(i, 10)) <==> StrictEq(xs[i], ys[i])
      {
        StaysInside(ORACLE, Numerals.Digits(i, 10));
        StrictInside(xs[i], ys[i], ORACLE + "/" + Numerals.Digits(i, 10));
      }
    }
  }

  // Blanking keys is comparing the others.
  lemma {:induction false} BlankedIff(m: map<string, Json>, n: map<string, Json>, keys: set<string>)
    requires m.Keys == n.Keys
    ensures StrictEq(Dict(Blanked(m, keys)), Dict(Blanked(n, keys)))
        <==> forall k :: k in m && k !in keys ==> StrictEq(m[k], n[k])
  {
    var p, q := Blanked(m, keys), Blanked(n, keys);
    assert forall k :: k in m && k !in keys ==> p[k] == m[k] && q[k] == n[k];
    assert forall k :: k in m && k in keys ==> p[k] == q[k] == Null;
    assert forall k :: k in p && k in keys ==> StrictEq(p[k], q[k]);
  }

  // The comparison accepts exactly the fixtures that are type-strictly equal
  // apart from their identity, whatever the roots are.
  lemma {:induction false} AcceptsIff(a: Json, b: Json)
    ensures Accepts(a, b, "") <==> StrictEq(Erased(a), Erased(b))
  {
    if a.Dict? && b.Dict? {
      RootObjectIff(a.entries, b.entries);
    } else if a.List? && b.List? && |a.items| == |b.items| {
      forall i | 0 <= i < |a.items|
        ensures Accepts(a.items[i], b.items[i], "" + "/" + Numerals.Digits(i, 10)) <==> StrictEq(a.items[i], b.items[i])
      {
        var name := Numerals.Digits(i, 10);
        RootPath(name);
        assert name != "oracle" by { assert Numerals.IsDigit(name[0], 10); }
        StrictInside(a.items[i], b.items[i], "/" + name);
      }
    }
  }

  lemma {:induction false} RootObjectIff(m: map<string, Json>, n: map<string, Json>)
    ensures Accepts(Dict(m), Dict(n), "") <==> StrictEq(Erased(Dict(m)), Erased(Dict(n)))
  {
    if m.Keys == n.Keys {
      RootAccepts(m, n);
      BlankedIff(ErasedValues(m), ErasedValues(n), {"generator_digest"});
      forall k | k in m
        ensures Accepts(m[k], n[k], "" + "/" + k) <==> StrictEq(ErasedValues(m)[k], ErasedValues(n)[k])
      {
        RootValueIff(k, m[k], n[k]);
      }
    }
  }

  lemma {:induction false} RootAccepts(m: map<string, Json>, n: map<string, Json>)
    requires m.Keys == n.Keys
    ensures Accepts(Dict(m), Dict(n), "")
        <==> forall k :: k in m && k !in {"generator_digest"} ==> Accepts(m[k], n[k], "" + "/" + k)
  {
    assert forall k :: Skipped("", k) <==> k in {"generator_digest"};
  }

  // So it is symmetric and transitive, and reflexive exactly where no compared
  // value is NaN.
  lemma {:induction false} IsEquivalence(a: Json, b: Json, c: Json)
    ensures Accepts(a, a, "") <==> NaNFree(Erased(a))
    ensures Accepts(a, b, "") <==> Accepts(b, a, "")
    ensures Accepts(a, b, "") && Accepts(b, c, "") ==> Accepts(a, c, "")
  {
    AcceptsIff(a, a);
    AcceptsIff(a, b);
    AcceptsIff(b, a);
    AcceptsIff(b, c);
    AcceptsIff(a, c);
    StrictEqIff(Erased(a), Erased(a));
    StrictEqIff(Erased(a), Erased(b));
    StrictEqIff(Erased(b), Erased(a));
    StrictEqIff(Erased(b), Erased(c));
    StrictEqIff(Erased(a), Erased(c));
  }

  // ---------------------------------------------------------------- compare_fixture

  // t[key] on a parsed value.
  function Lookup(t: Json, key: string): Result<Json>
  {
    if !t.Dict? then Err(TypeError)
    else if key !in t.entries then Err(KeyError)
    else Ok(t.entries[key])
  }

  // len() on a parsed value.
  function Len(t: Json): Result<nat>
  {
    match t
    case Str(s) => Ok(|s|)
    case List(xs) => Ok(|xs|)
    case Dict(m) => Ok(|m|)
    case _ => Err(TypeError)
  }

  function HasCases(t: Json, count: int): Result<bool>
  {
    match Lookup(t, "cases")
    case Err(e) => Err(e)
    case Ok(cases) =>
      match Len(cases)
      case Err(e) => Err(e)
      case Ok(n) => Ok(n == count)
  }

  function CommitIs(t: Json, commit: string): Result<bool>
  {
    match Lookup(t, "oracle")
    case Err(e) => Err(e)
    case Ok(oracle) =>
      match Lookup(oracle, "commit_sha")
      case Err(e) => Err(e)
      case Ok(sha) => Ok(sha == Str(commit))
  }

  // lanes holds the commits a capture may be bound to.
  function CompareFixture(recorded: Json, captured: Json, count: int, lanes: set<string>, commit: string): Result<()>
  {
    match HasCases(recorded, count)
    case Err(e) => Err(e)
    case Ok(false) => Err(ValueError)
    case Ok(true) =>
      match HasCases(captured, count)
      case Err(e) => Err(e)
      case Ok(false) => Err(ValueError)
      case Ok(true) =>
        if commit !in lanes then Err(ValueError)
        else
          match CommitIs(captured, commit)
          case Err(e) => Err(e)
          case Ok(bound) => if bound && Accepts(recorded, captured, "") then Ok(()) else Err(ValueError)
  }

  // A fixture that passes is the recorded one in everything but its identity,
  // and is bound to an allowed commit; the recorded one need not be. One that
  // has its cases and its commit and differs nowhere else passes.
  lemma {:induction false} PassesIff(recorded: Json, captured: Json, count: int, lanes: set<string>, commit: string)
    ensures CompareFixture(recorded, captured, count, lanes, commit) == Ok(())
        <==> (&& Erased(recorded) == Erased(captured) && NaNFree(Erased(captured))
              && HasCases(captured, count) == Ok(true)
              && commit in lanes && CommitIs(captured, commit) == Ok(true))
  {
    AcceptsIff(recorded, captured);
    StrictEqIff(Erased(recorded), Erased(captured));
    if Erased(recorded) == Erased(captured) && HasCases(captured, count) == Ok(true) {
      CasesKept(recorded);
      CasesKept(captured);
    }
  }

  // Erasing leaves the cases alone.
  lemma {:induction false} CasesKept(t: Json)
    ensures Lookup(Erased(t), "cases") == Lookup(t, "cases")
  {
    if t.Dict? {
      assert "cases" != "oracle" by { assert "cases"[0] != "oracle"[0]; }
      assert "cases" != "generator_digest" by { assert "cases"[0] != "generator_digest"[0]; }
    }
  }
}
