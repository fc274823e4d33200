// The fail-closed selector of macOS satellites: `select` and the decision part
// of `main` in scripts/ci_macos_satellites.py.
module Satellites {
  import opened Wrappers
  import opened Glob

  const MAX_CHANGED_FILES: nat := 3000

  // The satellites with their patterns, and the groups with their members.
  datatype Table = Table(keys: seq<string>, patterns: map<string, seq<string>>, groups: map<string, seq<string>>)
  {
    predicate Valid()
    {
      && (forall k :: k in keys ==> k in patterns)
      && (forall g :: g in groups ==> (forall k :: k in groups[g] ==> k in keys) && GroupKey(g) !in keys)
    }
  }

  function GroupKey(name: string): string { "group_" + name }

  lemma {:induction false} GroupKeyInjective(a: string, b: string)
    requires GroupKey(a) == GroupKey(b)
    ensures a == b
  {
    assert GroupKey(a)[6..] == a && GroupKey(b)[6..] == b;
  }

  type Decisions = map<string, bool>

  function OutputKeys(t: Table): set<string>
  {
    (set k | k in t.keys) + (set g | g in t.groups :: GroupKey(g))
  }

  function SelectAll(t: Table): Decisions { map k | k in OutputKeys(t) :: true }

  // A compiled pattern matches a path. An expression that cannot be read
  // matches nothing.
  predicate RegexMatches(text: string, path: string)
  {
    match ReadRegex(text) case None => false case Some(rs) => Matches(rs, path)
  }

  predicate PatternMatches(pattern: string, path: string)
  {
    match GlobToRegex(pattern) case Err(_) => false case Ok(text) => RegexMatches(text, path)
  }

  predicate AllAccepted(patterns: seq<string>) { forall i :: 0 <= i < |patterns| ==> Accepted(patterns[i]) }

  // Some changed file matches some pattern.
  predicate AnyMatch(patterns: seq<string>, changed: seq<string>)
  {
    exists i, j :: 0 <= i < |changed| && 0 <= j < |patterns| && PatternMatches(patterns[j], changed[i])
  }

  predicate TableAccepted(t: Table)
    requires t.Valid()
  {
    forall k :: k in t.keys ==> AllAccepted(t.patterns[k])
  }

  predicate On(t: Table, changed: seq<string>, key: string)
    requires t.Valid() && key in t.keys
  {
    AnyMatch(t.patterns[key], changed)
  }

  predicate GroupOn(t: Table, changed: seq<string>, g: string)
    requires t.Valid() && g in t.groups
  {
    exists k :: k in t.groups[g] && On(t, changed, k)
  }

  // The decisions agree with the patterns.
  ghost predicate Decides(t: Table, changed: seq<string>, d: Decisions)
    requires t.Valid()
  {
    && d.Keys == OutputKeys(t)
    && (forall k :: k in t.keys ==> (d[k] <==> On(t, changed, k)))
    && (forall g :: g in t.groups ==> (d[GroupKey(g)] <==> GroupOn(t, changed, g)))
  }

  // ---------------------------------------------------------------- the selector as it runs

  method AnyPathMatches(regexes: seq<string>, changed: seq<string>) returns (r: bool)
    ensures r <==> exists i, j :: 0 <= i < |changed| && 0 <= j < |regexes| && RegexMatches(regexes[j], changed[i])
  {
    for i := 0 to |changed|
      invariant forall h, j :: 0 <= h < i && 0 <= j < |regexes| ==> !RegexMatches(regexes[j], changed[h])
    {
      for j := 0 to |regexes|
        invariant forall h, l :: 0 <= h < i && 0 <= l < |regexes| ==> !RegexMatches(regexes[l], changed[h])
        invariant forall l :: 0 <= l < j ==> !RegexMatches(regexes[l], changed[i])
      {
        if RegexMatches(regexes[j], changed[i]) {
          return true;
        }
      }
    }
    return false;
  }

  method CompileAll(patterns: seq<string>) returns (r: Result<seq<string>>)
    ensures r.Ok? <==> AllAccepted(patterns)
    ensures r.Ok? ==> |r.value| == |patterns| && forall i :: 0 <= i < |patterns| ==> GlobToRegex(patterns[i]) == Ok(r.value[i])
    ensures r.Err? ==> r.error == ValueError
  {
    var regexes: seq<string> := [];
    for i := 0 to |patterns|
      invariant |regexes| == i && forall j :: 0 <= j < i ==> GlobToRegex(patterns[j]) == Ok(regexes[j])
    {
      var rx := CompileGlob(patterns[i]);
      if rx.Err? {
        return Err(ValueError);
      }
      regexes := regexes + [rx.value];
    }
    return Ok(regexes);
  }

  method SelectKeys(t: Table, changed: seq<string>) returns (r: Result<Decisions>)
    requires t.Valid()
    ensures r.Ok? <==> TableAccepted(t)
    ensures r.Ok? ==> r.value.Keys == (set k | k in t.keys) && forall k :: k in t.keys ==> (r.value[k] <==> On(t, changed, k))
  {
    var result: Decisions := map[];
    for i := 0 to |t.keys|
      invariant result.Keys == set k | k in t.keys[..i]
      invariant forall k :: k in t.keys[..i] ==> AllAccepted(t.patterns[k]) && (result[k] <==> On(t, changed, k))
    {
      var key := t.keys[i];
      assert t.keys[..i + 1] == t.keys[..i] + [key];
      var regexes := CompileAll(t.patterns[key]);
      if regexes.Err? {
        return Err(ValueError);
      }
      var on := AnyPathMatches(regexes.value, changed);
      assert forall j :: 0 <= j < |regexes.value| ==>
        forall path :: RegexMatches(regexes.value[j], path) <==> PatternMatches(t.patterns[key][j], path);
      assert on <==> On(t, changed, key);
      result := result[key := on];
    }
    assert t.keys[..|t.keys|] == t.keys;
    return Ok(result);
  }

  function GroupKeys(gs: set<string>): set<string> { set g | g in gs :: GroupKey(g) }

  // The groups in `done` are decided and the satellites are as before.
  ghost predicate GroupsDone(t: Table, changed: seq<string>, keys: Decisions, done: set<string>, d: Decisions)
    requires t.Valid() && done <= t.groups.Keys
  {
    && d.Keys == keys.Keys + GroupKeys(done)
    && (forall k :: k in keys ==> d[k] == keys[k])
    && (forall g :: g in done ==> (d[GroupKey(g)] <==> GroupOn(t, changed, g)))
  }

  lemma {:induction false} GroupAdded(t: Table, changed: seq<string>, keys: Decisions, done: set<string>, d: Decisions, g: string)
    requires t.Valid() && done <= t.groups.Keys && g in t.groups && keys.Keys == (set k | k in t.keys)
    requires GroupsDone(t, changed, keys, done, d)
    ensures GroupsDone(t, changed, keys, done + {g}, d[GroupKey(g) := GroupOn(t, changed, g)])
  {
    var key, on := GroupKey(g), GroupOn(t, changed, g);
    var e := d[key := on];
    GroupKeysGrow(done, g);
    assert key !in keys;
    forall h | h in done + {g} ensures GroupKey(h) in e && (e[GroupKey(h)] <==> GroupOn(t, changed, h)) {
      if h != g {
        DifferentGroups(h, g);
        assert GroupKey(h) in GroupKeys(done);
      }
    }
  }

  lemma {:induction false} DifferentGroups(a: string, b: string)
    requires a != b
    ensures GroupKey(a) != GroupKey(b)
  {
    if GroupKey(a) == GroupKey(b) {
      GroupKeyInjective(a, b);
    }
  }

  lemma {:induction false} GroupKeysGrow(gs: set<string>, g: string)
    ensures GroupKeys(gs + {g}) == GroupKeys(gs) + {GroupKey(g)}
  {
  }

  method AddGroups(t: Table, changed: seq<string>, keys: Decisions) returns (d: Decisions)
    requires t.Valid()
    requires keys.Keys == (set k | k in t.keys) && forall k :: k in t.keys ==> (keys[k] <==> On(t, changed, k))
    ensures Decides(t, changed, d)
  {
    d := keys;
    var done: set<string> := {};
    while t.groups.Keys - done != {}
      invariant done <= t.groups.Keys && GroupsDone(t, changed, keys, done, d)
      decreases t.groups.Keys - done
    {
      var g :| g in t.groups.Keys - done;
      var on := exists k :: k in t.groups[g] && keys[k];
      assert on <==> GroupOn(t, changed, g);
      GroupAdded(t, changed, keys, done, d, g);
      d := d[GroupKey(g) := on];
      done := done + {g};
    }
    assert done == t.groups.Keys;
  }

  method Select(t: Table, event: string, changed: Option<seq<string>>) returns (r: Result<Decisions>)
    requires t.Valid()
    ensures event != "pull_request" ==> r == Ok(SelectAll(t))
    ensures event == "pull_request" ==>
      (r.Ok? <==> changed.Some? && |changed.value| < MAX_CHANGED_FILES && TableAccepted(t))
      && (r.Ok? ==> Decides(t, changed.value, r.value))
  {
    if event != "pull_request" {
      return Ok(SelectAll(t));
    }
    if changed.None? || |changed.value| >= MAX_CHANGED_FILES {
      return Err(ValueError);
    }
    var keys := SelectKeys(t, changed.value);
    if keys.Err? {
      return Err(keys.error);
    }
    var d := AddGroups(t, changed.value, keys.value);
    return Ok(d);
  }

  // The whole decision: anything the selector cannot decide selects everything.
  // `changed` is None where the changed files could not be listed.
  method Decide(t: Table, event: string, changed: Option<seq<string>>) returns (d: Decisions)
    requires t.Valid()
    ensures Decided(t, event, changed, d)
  {
    var r := Select(t, event, changed);
    match r
    case Ok(decisions) => d := decisions;
    case Err(_) => d := SelectAll(t);
  }

  // ---------------------------------------------------------------- what is decided

  // The changed files are known and decide.
  predicate Filtered(t: Table, event: string, changed: Option<seq<string>>)
    requires t.Valid()
  {
    event == "pull_request" && changed.Some? && |changed.value| < MAX_CHANGED_FILES && TableAccepted(t)
  }

  ghost predicate Decided(t: Table, event: string, changed: Option<seq<string>>, d: Decisions)
    requires t.Valid()
  {
    if Filtered(t, event, changed) then Decides(t, changed.value, d) else d == SelectAll(t)
  }

  predicate AnyGlobMatch(patterns: seq<string>, changed: seq<string>)
  {
    exists i, j :: 0 <= i < |changed| && 0 <= j < |patterns| && GlobMatches(patterns[j], changed[i])
  }

  // A satellite is on exactly if nothing could be filtered or some changed file
  // matches one of its globs, in the glob's own meaning.
  lemma {:induction false} OnIff(t: Table, event: string, changed: Option<seq<string>>, d: Decisions, key: string)
    requires t.Valid() && Decided(t, event, changed, d) && key in t.keys
    requires changed.Some? ==> forall i :: 0 <= i < |changed.value| ==> OneLine(changed.value[i])
    ensures key in d
    ensures d[key] <==> (!Filtered(t, event, changed) || AnyGlobMatch(t.patterns[key], changed.value))
  {
    assert key in OutputKeys(t);
    if Filtered(t, event, changed) {
      forall i, j | 0 <= i < |changed.value| && 0 <= j < |t.patterns[key]|
        ensures PatternMatches(t.patterns[key][j], changed.value[i]) <==> GlobMatches(t.patterns[key][j], changed.value[i])
      {
        RegexMeansGlob(t.patterns[key][j], changed.value[i]);
      }
    }
  }

  // Every file of one list is in the other.
  predicate Covers(more: seq<string>, fewer: seq<string>) { forall f :: f in fewer ==> f in more }

  lemma {:induction false} OnMonotone(t: Table, fewer: seq<string>, more: seq<string>, key: string)
    requires t.Valid() && key in t.keys && Covers(more, fewer) && On(t, fewer, key)
    ensures On(t, more, key)
  {
    var i, j :| 0 <= i < |fewer| && 0 <= j < |t.patterns[key]| && PatternMatches(t.patterns[key][j], fewer[i]);
    assert fewer[i] in more;
    var h :| 0 <= h < |more| && more[h] == fewer[i];
    assert PatternMatches(t.patterns[key][j], more[h]);
  }

  // More changed files never switch anything off, unless the longer list is
  // filtered and the shorter one was too long to be.
  lemma {:induction false} Monotone(t: Table, event: string, fewer: seq<string>, more: seq<string>,
                                    d: Decisions, e: Decisions, out: string)
    requires t.Valid() && Decided(t, event, Some(fewer), d) && Decided(t, event, Some(more), e)
    requires Covers(more, fewer) && (|fewer| < MAX_CHANGED_FILES || |more| >= MAX_CHANGED_FILES)
    requires out in OutputKeys(t)
    ensures out in d && out in e && (d[out] ==> e[out])
  {
    if Filtered(t, event, Some(more)) {
      if out in t.keys {
        if d[out] {
          OnMonotone(t, fewer, more, out);
        }
      } else {
        var g :| g in t.groups && out == GroupKey(g);
        if d[out] {
          assert GroupOn(t, fewer, g);
          var k :| k in t.groups[g] && On(t, fewer, k);
          OnMonotone(t, fewer, more, k);
        }
      }
    }
  }

  predicate NoRepeats(s: seq<string>) { forall i, j :: 0 <= i < j < |s| ==> s[i] != s[j] }

  function Elements(s: seq<string>): set<string> { set f | f in s }

  lemma {:induction false} CountElements(s: seq<string>)
    ensures |Elements(s)| <= |s|
    ensures NoRepeats(s) ==> |Elements(s)| == |s|
    decreases |s|
  {
    if s != [] {
      var front, last := s[..|s| - 1], s[|s| - 1];
      CountElements(front);
      assert Elements(s) == Elements(front) + {last};
      assert NoRepeats(s) ==> last !in Elements(front);
    }
  }

  lemma {:induction false} SubsetIsSmaller(a: set<string>, b: set<string>)
    requires a <= b
    ensures |a| <= |b|
  {
    assert b == a + (b - a);
  }

  // Without repeated files, as git lists them, more files never switch
  // anything off, across the limit and the fallback.
  lemma {:induction false} MonotoneInFiles(t: Table, event: string, fewer: seq<string>, more: seq<string>,
                                           d: Decisions, e: Decisions, out: string)
    requires t.Valid() && Decided(t, event, Some(fewer), d) && Decided(t, event, Some(more), e)
    requires NoRepeats(fewer) && Covers(more, fewer) && out in OutputKeys(t)
    ensures out in d && out in e && (d[out] ==> e[out])
  {
    CountElements(fewer);
    CountElements(more);
    SubsetIsSmaller(Elements(fewer), Elements(more));
    Monotone(t, event, fewer, more, d, e, out);
  }

  // The only loss: a list too long to filter, with repeats, against a list of
  // the same files short enough to filter, which leaves something off.
  lemma {:induction false} MonotoneIff(t: Table, event: string, fewer: seq<string>, more: seq<string>, d: Decisions, e: Decisions)
    requires t.Valid() && Decided(t, event, Some(fewer), d) && Decided(t, event, Some(more), e) && Covers(more, fewer)
    ensures Keeps(t, d, e) <==>
      |fewer| < MAX_CHANGED_FILES || !Filtered(t, event, Some(more)) || AllOn(t, more)
  {
    if |fewer| < MAX_CHANGED_FILES || |more| >= MAX_CHANGED_FILES {
      forall out | out in OutputKeys(t) ensures out in d && out in e && (d[out] ==> e[out]) {
        Monotone(t, event, fewer, more, d, e, out);
      }
    } else if Filtered(t, event, Some(more)) {
      AllSelected(t, more, d, e);
    }
  }

  // No output of d is off in e.
  predicate Keeps(t: Table, d: Decisions, e: Decisions)
  {
    forall out :: out in OutputKeys(t) ==> out in d && out in e && (d[out] ==> e[out])
  }

  // The changed files reach every satellite and every group.
  predicate AllOn(t: Table, changed: seq<string>)
    requires t.Valid()
  {
    (forall key :: key in t.keys ==> On(t, changed, key)) && (forall g :: g in t.groups ==> GroupOn(t, changed, g))
  }

  lemma {:induction false} AllSelected(t: Table, changed: seq<string>, d: Decisions, e: Decisions)
    requires t.Valid() && d == SelectAll(t) && Decides(t, changed, e)
    ensures Keeps(t, d, e) <==> AllOn(t, changed)
  {
    forall g | g in t.groups ensures GroupKey(g) in OutputKeys(t) {
    }
    assert forall key :: key in t.keys ==> key in OutputKeys(t);
  }

  // With repeated files it can: the same file listed three thousand times
  // selects everything, listed once only what it matches.
  lemma {:induction false} RepeatsBreakMonotone(t: Table, file: string, d: Decisions, e: Decisions, key: string)
    requires t.Valid() && TableAccepted(t) && key in t.keys && !On(t, [file], key)
    requires Decided(t, "pull_request", Some(seq(MAX_CHANGED_FILES, _ => file)), d)
    requires Decided(t, "pull_request", Some([file]), e)
    ensures Covers([file], seq(MAX_CHANGED_FILES, _ => file))
    ensures key in d && key in e && d[key] && !e[key]
  {
    assert key in OutputKeys(t);
  }
}
