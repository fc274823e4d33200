// The path globs of the macOS satellite selector: `glob_to_regex` of
// scripts/ci_macos_satellites.py, with the regular expressions it emits.
module Glob {
  import opened Wrappers

  // ---------------------------------------------------------------- the compiler

  predicate Unsupported(c: char) { c == '[' || c == ']' || c == '{' || c == '}' || c == '!' }

  predicate Accepted(pattern: string) { forall k :: 0 <= k < |pattern| ==> !Unsupported(pattern[k]) }

  // The characters re.escape puts a backslash before.
  predicate Special(c: char)
  {
    || c == '(' || c == ')' || c == '[' || c == ']' || c == '{' || c == '}' || c == '?' || c == '*' || c == '+'
    || c == '-' || c == '|' || c == '^' || c == '$' || c == '\\' || c == '.' || c == '&' || c == '~' || c == '#'
    || c == ' ' || 9 <= c as int <= 13
  }

  function Escape(c: char): string { if Special(c) then ['\\', c] else [c] }

  // What a pattern starts with, how long that is and what is emitted for it.
  datatype Token = Dirs | Anything | Segment | One | Literal(c: char)

  function TokenAt(p: string): Token
    requires p != ""
  {
    if p[0] == '*' && |p| > 1 && p[1] == '*' then
      if |p| > 2 && p[2] == '/' then Dirs else Anything
    else if p[0] == '*' then Segment
    else if p[0] == '?' then One
    else Literal(p[0])
  }

  function Width(t: Token): (n: nat)
    ensures n > 0
  {
    match t case Dirs => 3 case Anything => 2 case _ => 1
  }

  function Emit(t: Token): string
  {
    match t
    case Dirs => "(?:.*/)?"
    case Anything => ".*"
    case Segment => "[^/]*"
    case One => "[^/]"
    case Literal(c) => Escape(c)
  }

  function Rest(p: string): (r: string)
    requires p != ""
    ensures |r| < |p|
  {
    p[Width(TokenAt(p))..]
  }

  function Translate(p: string): string
    decreases |p|
  {
    if p == "" then "" else Emit(TokenAt(p)) + Translate(Rest(p))
  }

  function GlobToRegex(p: string): Result<string>
  {
    if Accepted(p) then Ok("^" + Translate(p) + "$") else Err(ValueError)
  }

  // The compiler as it runs.
  method CompileGlob(pattern: string) returns (r: Result<string>)
    ensures r == GlobToRegex(pattern)
  {
    if !Accepted(pattern) {
      return Err(ValueError);
    }
    var out, i := "", 0;
    while i < |pattern|
      invariant 0 <= i <= |pattern|
      invariant out + Translate(pattern[i..]) == Translate(pattern)
    {
      var t := TokenAt(pattern[i..]);
      TranslateStep(pattern, i, out);
      out := out + Emit(t);
      i := i + Width(t);
    }
    assert pattern[|pattern|..] == "";
    assert out + "" == out;
    return Ok("^" + out + "$");
  }

  lemma {:induction false} TranslateStep(pattern: string, i: nat, out: string)
    requires i < |pattern|
    ensures var t := TokenAt(pattern[i..]);
            i + Width(t) <= |pattern|
            && out + Translate(pattern[i..]) == out + Emit(t) + Translate(pattern[i + Width(t)..])
  {
    var p := pattern[i..];
    assert Rest(p) == pattern[i + Width(TokenAt(p))..];
    assert Translate(p) == Emit(TokenAt(p)) + Translate(Rest(p));
  }

  // ---------------------------------------------------------------- regular expressions

  // The expressions the compiler can emit.
  datatype Re = Lit(c: char) | Dot | NotSlash | Star(body: Re) | Opt(body: Re) | Group(items: seq<Re>)

  // Reading: a sequence of items up to the end or a closing parenthesis.
  function ReadItems(t: string): (r: Option<(seq<Re>, string)>)
    ensures r.Some? ==> |r.value.1| <= |t|
    decreases |t|, 1
  {
    if t == "" || t[0] == ')' then Some(([], t))
    else
      match ReadAtom(t)
      case None => None
      case Some((atom, rest)) =>
        var (item, after) := Quantified(atom, rest);
        match ReadItems(after)
        case None => None
        case Some((items, end)) => Some(([item] + items, end))
  }

  // A quantifier applies to the atom just before it.
  function Quantified(atom: Re, rest: string): (r: (Re, string))
    ensures |r.1| <= |rest|
  {
    if rest != "" && rest[0] == '*' then (Star(atom), rest[1..])
    else if rest != "" && rest[0] == '?' then (Opt(atom), rest[1..])
    else (atom, rest)
  }

  function ReadAtom(t: string): (r: Option<(Re, string)>)
    requires t != ""
    ensures r.Some? ==> |r.value.1| < |t|
    decreases |t|, 0
  {
    if t[0] == '(' then
      if |t| > 2 && t[1] == '?' && t[2] == ':' then
        match ReadItems(t[3..])
        case Some((items, rest)) => if rest != "" && rest[0] == ')' then Some((Group(items), rest[1..])) else None
        case None => None
      else None
    else if t[0] == '[' then
      if |t| > 3 && t[1] == '^' && t[2] == '/' && t[3] == ']' then Some((NotSlash, t[4..])) else None
    else if t[0] == '\\' then if |t| > 1 then Some((Lit(t[1]), t[2..])) else None
    else if t[0] == '.' then Some((Dot, t[1..]))
    else if Special(t[0]) then None
    else Some((Lit(t[0]), t[1..]))
  }

  // A whole expression between its anchors.
  function ReadRegex(text: string): Option<seq<Re>>
  {
    if |text| < 2 || text[0] != '^' || text[|text| - 1] != '$' then None
    else
      match ReadItems(text[1..|text| - 1])
      case Some((items, rest)) => if rest == "" then Some(items) else None
      case None => None
  }

  // The texts an expression matches.
  predicate MatchesOne(r: Re, s: string)
    decreases r, |s|, 0
  {
    match r
    case Lit(c) => s == [c]
    case Dot => |s| == 1 && s[0] != '\n'
    case NotSlash => |s| == 1 && s[0] != '/'
    case Star(body) =>
      s == "" || exists k :: 0 < k <= |s| && MatchesOne(body, s[..k]) && MatchesOne(r, s[k..])
    case Opt(body) => s == "" || MatchesOne(body, s)
    case Group(items) => Matches(items, s)
  }

  predicate Matches(rs: seq<Re>, s: string)
    decreases rs, |s|, 1
  {
    if rs == [] then s == ""
    else exists k :: 0 <= k <= |s| && MatchesOne(rs[0], s[..k]) && Matches(rs[1..], s[k..])
  }

  // ---------------------------------------------------------------- what a glob means

  predicate SlashFree(s: string) { forall k :: 0 <= k < |s| ==> s[k] != '/' }

  // `**/` is nothing or any directories, `**` anything, `*` anything without a
  // slash, `?` one character but a slash, anything else itself.
  predicate GlobMatches(p: string, s: string)
    decreases |p|
  {
    if p == "" then s == ""
    else
      var rest := Rest(p);
      match TokenAt(p)
      case Dirs => GlobMatches(rest, s) || exists k :: 0 <= k < |s| && s[k] == '/' && GlobMatches(rest, s[k + 1..])
      case Anything => exists k :: 0 <= k <= |s| && GlobMatches(rest, s[k..])
      case Segment => exists k :: 0 <= k <= |s| && SlashFree(s[..k]) && GlobMatches(rest, s[k..])
      case One => s != "" && s[0] != '/' && GlobMatches(rest, s[1..])
      case Literal(c) => s != "" && s[0] == c && GlobMatches(rest, s[1..])
  }

  // ---------------------------------------------------------------- the emitted text is read as intended

  function Intended(t: Token): Re
  {
    match t
    case Dirs => Opt(Group([Star(Dot), Lit('/')]))
    case Anything => Star(Dot)
    case Segment => Star(NotSlash)
    case One => NotSlash
    case Literal(c) => Lit(c)
  }

  function IntendedAll(p: string): seq<Re>
    decreases |p|
  {
    if p == "" then [] else [Intended(TokenAt(p))] + IntendedAll(Rest(p))
  }

  // Text that cannot be taken for a quantifier or the end of a group.
  predicate Separate(t: string) { t != "" ==> t[0] != '*' && t[0] != '?' && t[0] != ')' }

  lemma {:induction false} EmitIsSeparate(t: Token)
    ensures Emit(t) != "" && Separate(Emit(t))
  {
  }

  lemma {:induction false} TranslateIsSeparate(p: string)
    ensures Separate(Translate(p))
  {
    if p != "" {
      EmitIsSeparate(TokenAt(p));
    }
  }

  // Items are read one after the other.
  lemma {:induction false} ReadsItem(t: string, atom: Re, rest: string, item: Re, after: string)
    requires t != "" && t[0] != ')' && ReadAtom(t) == Some((atom, rest)) && Quantified(atom, rest) == (item, after)
    ensures match ReadItems(after)
            case None => ReadItems(t) == None
            case Some((items, end)) => ReadItems(t) == Some(([item] + items, end))
  {
  }

  lemma {:induction false} ReadsLiteral(c: char, rest: string)
    requires Separate(rest)
    ensures var t := Escape(c) + rest;
            t != "" && t[0] != ')' && ReadAtom(t) == Some((Lit(c), rest)) && Quantified(Lit(c), rest) == (Lit(c), rest)
  {
    var t := Escape(c) + rest;
    assert t[|Escape(c)|..] == rest;
  }

  lemma {:induction false} ReadsDotStar(rest: string)
    ensures var t := ".*" + rest; ReadAtom(t) == Some((Dot, "*" + rest)) && Quantified(Dot, "*" + rest) == (Star(Dot), rest)
  {
    assert (".*" + rest)[1..] == "*" + rest;
    assert ("*" + rest)[1..] == rest;
  }

  lemma {:induction false} ReadsNotSlash(rest: string)
    ensures ReadAtom("[^/]" + rest) == Some((NotSlash, rest))
    ensures Quantified(NotSlash, "*" + rest) == (Star(NotSlash), rest)
    ensures Separate(rest) ==> Quantified(NotSlash, rest) == (NotSlash, rest)
  {
    assert ("[^/]" + rest)[4..] == rest;
    assert ("*" + rest)[1..] == rest;
  }

  // The body of the directories group, up to its parenthesis.
  lemma {:induction false} ReadsDirsBody(rest: string)
    ensures ReadItems(".*/)" + rest) == Some(([Star(Dot), Lit('/')], ")" + rest))
  {
    var close := ")" + rest;
    assert ReadItems(close) == Some(([], close));
    ReadsSlash(close);
    ReadsDotStar("/" + close);
    assert ".*/)" + rest == ".*" + ("/" + close);
    ReadsItem(".*" + ("/" + close), Dot, "*" + ("/" + close), Star(Dot), "/" + close);
    assert [Star(Dot)] + [Lit('/')] == [Star(Dot), Lit('/')];
  }

  lemma {:induction false} ReadsSlash(close: string)
    requires close != "" && close[0] == ')'
    ensures ReadItems("/" + close) == Some(([Lit('/')], close))
  {
    assert ReadItems(close) == Some(([], close));
    assert ("/" + close)[1..] == close;
    ReadsItem("/" + close, Lit('/'), close, Lit('/'), close);
    assert [Lit('/')] + [] == [Lit('/')];
  }

  lemma {:induction false} ReadsDirs(rest: string)
    ensures var t, after := "(?:.*/)?" + rest, "?" + rest;
            ReadAtom(t) == Some((Group([Star(Dot), Lit('/')]), after))
            && Quantified(Group([Star(Dot), Lit('/')]), after) == (Opt(Group([Star(Dot), Lit('/')])), rest)
  {
    var t := "(?:.*/)?" + rest;
    assert t[3..] == ".*/)" + ("?" + rest);
    ReadsDirsBody("?" + rest);
    assert (")" + ("?" + rest))[1..] == "?" + rest;
    assert ("?" + rest)[1..] == rest;
  }

  lemma {:induction false} ReadsToken(t: Token, rest: string)
    requires Separate(rest)
    ensures match ReadItems(rest)
            case None => ReadItems(Emit(t) + rest) == None
            case Some((items, end)) => ReadItems(Emit(t) + rest) == Some(([Intended(t)] + items, end))
  {
    match t
    case Dirs =>
      ReadsDirs(rest);
      var g := Group([Star(Dot), Lit('/')]);
      ReadsItem(Emit(t) + rest, g, "?" + rest, Opt(g), rest);
    case Anything =>
      ReadsDotStar(rest);
      ReadsItem(Emit(t) + rest, Dot, "*" + rest, Star(Dot), rest);
    case Segment =>
      ReadsNotSlash("*" + rest);
      ReadsNotSlash(rest);
      assert Emit(t) + rest == "[^/]" + ("*" + rest);
      ReadsItem(Emit(t) + rest, NotSlash, "*" + rest, Star(NotSlash), rest);
    case One =>
      ReadsNotSlash(rest);
      ReadsItem(Emit(t) + rest, NotSlash, rest, NotSlash, rest);
    case Literal(c) =>
      ReadsLiteral(c, rest);
      ReadsItem(Emit(t) + rest, Lit(c), rest, Lit(c), rest);
  }

  lemma {:induction false} ReadsTranslate(p: string)
    ensures ReadItems(Translate(p)) == Some((IntendedAll(p), ""))
    decreases |p|
  {
    if p != "" {
      ReadsTranslate(Rest(p));
      TranslateIsSeparate(Rest(p));
      ReadsToken(TokenAt(p), Translate(Rest(p)));
    }
  }

  // The pieces the compiler joins are read as the pieces they were: no join
  // makes a quantifier, an escape or a group out of neighbours.
  lemma {:induction false} ReadsEmitted(p: string)
    requires Accepted(p)
    ensures ReadRegex(GlobToRegex(p).value) == Some(IntendedAll(p))
  {
    var text := GlobToRegex(p).value;
    assert text[1..|text| - 1] == Translate(p);
    ReadsTranslate(p);
  }

  // ---------------------------------------------------------------- and means what the glob means

  predicate OneLine(s: string) { forall k :: 0 <= k < |s| ==> s[k] != '\n' }

  lemma {:induction false} StarDot(s: string)
    requires OneLine(s)
    ensures MatchesOne(Star(Dot), s)
    decreases |s|
  {
    if s != "" {
      StarDot(s[1..]);
      assert MatchesOne(Dot, s[..1]) && MatchesOne(Star(Dot), s[1..]);
    }
  }

  lemma {:induction false} StarNotSlash(s: string)
    ensures MatchesOne(Star(NotSlash), s) <==> SlashFree(s)
    decreases |s|
  {
    if s != "" {
      StarNotSlash(s[1..]);
      if SlashFree(s) {
        assert MatchesOne(NotSlash, s[..1]) && MatchesOne(Star(NotSlash), s[1..]);
      }
      if MatchesOne(Star(NotSlash), s) {
        var k :| 0 < k <= |s| && MatchesOne(NotSlash, s[..k]) && MatchesOne(Star(NotSlash), s[k..]);
        assert k == 1 && s[..1][0] == s[0];
        assert forall i :: 1 <= i < |s| ==> s[i] == s[1..][i - 1];
      }
    }
  }

  // The directories group matches text that ends in a slash.
  lemma {:induction false} DirsGroup(s: string)
    requires OneLine(s)
    ensures MatchesOne(Group([Star(Dot), Lit('/')]), s) <==> s != "" && s[|s| - 1] == '/'
  {
    var rs := [Star(Dot), Lit('/')];
    assert rs[1..] == [Lit('/')] && rs[1..][1..] == [];
    LastLiteral('/', s);
    if s != "" && s[|s| - 1] == '/' {
      var k := |s| - 1;
      StarDot(s[..k]);
      LastLiteral('/', s[k..]);
      assert MatchesOne(rs[0], s[..k]) && Matches(rs[1..], s[k..]);
    }
    if Matches(rs, s) {
      var k :| 0 <= k <= |s| && MatchesOne(rs[0], s[..k]) && Matches(rs[1..], s[k..]);
      LastLiteral('/', s[k..]);
      assert s[k..][0] == s[k];
    }
  }

  lemma {:induction false} LastLiteral(c: char, s: string)
    ensures Matches([Lit(c)], s) <==> s == [c]
  {
    var rs := [Lit(c)];
    assert rs[1..] == [];
    if s == [c] {
      assert s[..1] == s && s[1..] == "";
      assert MatchesOne(rs[0], s[..1]) && Matches(rs[1..], s[1..]);
    }
    if Matches(rs, s) {
      var k :| 0 <= k <= |s| && MatchesOne(rs[0], s[..k]) && Matches(rs[1..], s[k..]);
      assert k == |s| && s[..k] == s;
    }
  }

  // A sequence matches if a front part matches its first item and the rest the others.
  lemma {:induction false} MatchesCons(r: Re, rs: seq<Re>, s: string, k: nat)
    requires k <= |s| && MatchesOne(r, s[..k]) && Matches(rs, s[k..])
    ensures Matches([r] + rs, s)
  {
    assert ([r] + rs)[1..] == rs;
  }

  lemma {:induction false} MatchesSplit(r: Re, rs: seq<Re>, s: string) returns (k: nat)
    requires Matches([r] + rs, s)
    ensures k <= |s| && MatchesOne(r, s[..k]) && Matches(rs, s[k..])
  {
    assert ([r] + rs)[1..] == rs;
    k :| 0 <= k <= |s| && MatchesOne(([r] + rs)[0], s[..k]) && Matches(([r] + rs)[1..], s[k..]);
  }

  // What a token takes off the front of a path.
  predicate Takes(t: Token, front: string)
  {
    match t
    case Dirs => front == "" || front[|front| - 1] == '/'
    case Anything => true
    case Segment => SlashFree(front)
    case One => |front| == 1 && front[0] != '/'
    case Literal(c) => front == [c]
  }

  // The item emitted for a token matches exactly that.
  lemma {:induction false} ItemTakesIff(t: Token, s: string)
    requires OneLine(s)
    ensures MatchesOne(Intended(t), s) <==> Takes(t, s)
  {
    match t
    case Dirs =>
      if s != "" {
        DirsGroup(s);
      }
    case Anything => StarDot(s);
    case Segment => StarNotSlash(s);
    case One =>
    case Literal(_) =>
  }

  // A glob matches where its first token takes off a front and the rest
  // matches what is left.
  lemma {:induction false} GlobStep(p: string, s: string, front: string, left: string)
    requires p != "" && s == front + left && GlobMatches(Rest(p), left) && Takes(TokenAt(p), front)
    ensures GlobMatches(p, s)
  {
    var k := |front|;
    assert s[..k] == front && s[k..] == left;
    match TokenAt(p)
    case Dirs =>
      if front == "" {
        assert s == left;
      } else {
        assert s[k - 1] == '/' && s[k - 1 + 1..] == left;
      }
    case Anything =>
    case Segment =>
    case One =>
    case Literal(_) =>
  }

  // And only there.
  lemma {:induction false} GlobSplit(p: string, s: string) returns (k: nat)
    requires p != "" && GlobMatches(p, s)
    ensures k <= |s| && Takes(TokenAt(p), s[..k]) && GlobMatches(Rest(p), s[k..])
  {
    var rest := Rest(p);
    match TokenAt(p)
    case Dirs =>
      if GlobMatches(rest, s) {
        k := 0;
        assert s[0..] == s && s[..0] == "";
      } else {
        var j :| 0 <= j < |s| && s[j] == '/' && GlobMatches(rest, s[j + 1..]);
        k := j + 1;
        assert s[..k][|s[..k]| - 1] == s[j];
      }
    case Anything => k :| 0 <= k <= |s| && GlobMatches(rest, s[k..]);
    case Segment => k :| 0 <= k <= |s| && SlashFree(s[..k]) && GlobMatches(rest, s[k..]);
    case One => k := 1;
    case Literal(c) =>
      k := 1;
      assert s[..1] == [c];
  }

  lemma {:induction false} RegexStep(p: string, s: string, k: nat)
    requires p != "" && OneLine(s) && k <= |s| && Takes(TokenAt(p), s[..k]) && Matches(IntendedAll(Rest(p)), s[k..])
    ensures Matches(IntendedAll(p), s)
  {
    ItemTakesIff(TokenAt(p), s[..k]);
    MatchesCons(Intended(TokenAt(p)), IntendedAll(Rest(p)), s, k);
  }

  lemma {:induction false} RegexSplit(p: string, s: string) returns (k: nat)
    requires p != "" && OneLine(s) && Matches(IntendedAll(p), s)
    ensures k <= |s| && Takes(TokenAt(p), s[..k]) && Matches(IntendedAll(Rest(p)), s[k..])
  {
    k := MatchesSplit(Intended(TokenAt(p)), IntendedAll(Rest(p)), s);
    ItemTakesIff(TokenAt(p), s[..k]);
  }

  lemma {:induction false} GlobImpliesRegex(p: string, s: string)
    requires OneLine(s) && GlobMatches(p, s)
    ensures Matches(IntendedAll(p), s)
    decreases |p|
  {
    if p != "" {
      var k := GlobSplit(p, s);
      GlobImpliesRegex(Rest(p), s[k..]);
      RegexStep(p, s, k);
    }
  }

  lemma {:induction false} RegexImpliesGlob(p: string, s: string)
    requires OneLine(s) && Matches(IntendedAll(p), s)
    ensures GlobMatches(p, s)
    decreases |p|
  {
    if p != "" {
      var k := RegexSplit(p, s);
      RegexImpliesGlob(Rest(p), s[k..]);
      assert s == s[..k] + s[k..];
      GlobStep(p, s, s[..k], s[k..]);
    }
  }

  // The compiled expression matches a path exactly if the glob does.
  lemma {:induction false} RegexMeansGlob(p: string, s: string)
    requires Accepted(p) && OneLine(s)
    ensures ReadRegex(GlobToRegex(p).value).Some?
    ensures Matches(ReadRegex(GlobToRegex(p).value).value, s) <==> GlobMatches(p, s)
  {
    ReadsEmitted(p);
    if GlobMatches(p, s) {
      GlobImpliesRegex(p, s);
    }
    if Matches(IntendedAll(p), s) {
      RegexImpliesGlob(p, s);
    }
  }
}
