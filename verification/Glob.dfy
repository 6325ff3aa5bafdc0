/** File globs: the left-to-right translation into an anchored regular expression, the language that
    expression accepts, and the meaning of the glob it was translated from. */
module Glob {
  import opened Util

  // ---- regular expressions -----------------------------------------------------------------

  /** The constructs the translation emits: a literal, `.`, `[^/]`, and the usual combinators. */
  datatype Re = Eps | Chr(c: char) | Dot | NotSlash | Cat(a: Re, b: Re) | Alt(a: Re, b: Re) | Star(a: Re)

  predicate In(r: Re, s: string)
    decreases |s|, r
  {
    match r
    case Eps => s == []
    case Chr(c) => s == [c]
    case Dot => |s| == 1 && s[0] != '\n'
    case NotSlash => |s| == 1 && s[0] != '/'
    case Cat(a, b) => exists k :: 0 <= k <= |s| && In(a, s[..k]) && In(b, s[k..])
    case Alt(a, b) => In(a, s) || In(b, s)
    case Star(a) => s == [] || exists k :: 0 < k <= |s| && In(a, s[..k]) && In(Star(a), s[k..])
  }

  /** `^...$` with `match`: `$` also holds just before a trailing newline. */
  predicate Accepts(r: Re, path: string) {
    In(r, path) || (path != [] && path[|path| - 1] == '\n' && In(r, path[..|path| - 1]))
  }

  // ---- the translation ---------------------------------------------------------------------

  const DIRECTORIES := Alt(Cat(Star(Dot), Chr('/')), Eps)
  const ANYTHING := Star(Dot)
  const SEGMENT := Star(NotSlash)

  function Literal(s: string): Re {
    if s == [] then Eps else Cat(Chr(s[0]), Literal(s[1..]))
  }

  function Choice(choices: seq<string>): Re
    requires choices != []
  {
    if |choices| == 1 then Literal(choices[0]) else Alt(Literal(choices[0]), Choice(choices[1..]))
  }

  function Join(parts: seq<Re>): Re {
    if parts == [] then Eps else Cat(parts[0], Join(parts[1..]))
  }

  /** Where `c` first occurs. */
  function Find(s: string, c: char): (r: Option<nat>)
    ensures r.Some? ==> r.value < |s| && s[r.value] == c && c !in s[..r.value]
    ensures r.None? ==> c !in s
  {
    if s == [] then None
    else if s[0] == c then Some(0)
    else
      var r := Find(s[1..], c);
      if r.None? then None else assert s[..r.value + 1] == [s[0]] + s[1..][..r.value]; Some(r.value + 1)
  }

  /** Python's `split(",")`: never empty, and the pieces joined by commas give the text back. */
  function SplitCommas(s: string): (r: seq<string>)
    ensures r != []
    decreases |s|
  {
    match Find(s, ',')
    case None => [s]
    case Some(k) => [s[..k]] + SplitCommas(s[k + 1..])
  }

  /** The construct at the head of a non-empty glob, and how much of the glob it takes. */
  function Lex(g: string): (r: (Re, nat))
    requires g != []
    ensures 1 <= r.1 <= |g|
  {
    if StartsWith(g, "**/") then (DIRECTORIES, 3)
    else if StartsWith(g, "**") then (ANYTHING, 2)
    else if g[0] == '*' then (SEGMENT, 1)
    else if g[0] == '?' then (NotSlash, 1)
    else if g[0] == '{' && Find(g, '}').Some? then
      (Choice(SplitCommas(g[1..Find(g, '}').value])), Find(g, '}').value + 1)
    else (Chr(g[0]), 1)
  }

  function Parts(g: string): seq<Re> {
    if g == [] then [] else [Lex(g).0] + Parts(g[Lex(g).1..])
  }

  function Compiled(g: string): Re { Join(Parts(g)) }

  predicate At(s: string, i: nat, c: char) { i < |s| && s[i] == c }

  lemma HeadOf(g: string, i: nat)
    requires i < |g|
    ensures StartsWith(g[i..], "**") <==> g[i] == '*' && At(g, i + 1, '*')
    ensures StartsWith(g[i..], "**/") <==> g[i] == '*' && At(g, i + 1, '*') && At(g, i + 2, '/')
  {
    var s := g[i..];
    if |s| >= 2 { assert s[..2] == [s[0], s[1]]; }
    if |s| >= 3 { assert s[..3] == [s[0], s[1], s[2]]; }
  }

  /** The construct at index `i`, recognised by looking at most two characters ahead. */
  method NextPart(glob: string, i: nat) returns (part: Re, width: nat)
    requires i < |glob|
    ensures (part, width) == Lex(glob[i..])
  {
    HeadOf(glob, i);
    var ch := glob[i];
    part, width := Chr(ch), 1;
    if ch == '*' && At(glob, i + 1, '*') && At(glob, i + 2, '/') {
      part, width := DIRECTORIES, 3;
    } else if ch == '*' && At(glob, i + 1, '*') {
      part, width := ANYTHING, 2;
    } else if ch == '*' {
      part := SEGMENT;
    } else if ch == '?' {
      part := NotSlash;
    } else if ch == '{' {
      var close := Find(glob[i..], '}');
      if close.Some? {
        part, width := Choice(SplitCommas(glob[i..][1..close.value])), close.value + 1;
      }
    }
  }

  /** `parts` is what the first `i` characters translate to. */
  ghost predicate Scanned(g: string, i: nat, parts: seq<Re>) {
    i <= |g| && parts + Parts(g[i..]) == Parts(g)
  }

  lemma ScanStep(g: string, i: nat, parts: seq<Re>, part: Re, width: nat)
    requires i < |g| && Scanned(g, i, parts) && Lex(g[i..]) == (part, width)
    ensures Scanned(g, i + width, parts + [part])
  {
    assert g[i..][width..] == g[i + width..];
    assert Parts(g[i..]) == [part] + Parts(g[i + width..]);
  }

  lemma ScanEnd(g: string, parts: seq<Re>)
    requires Scanned(g, |g|, parts)
    ensures parts == Parts(g)
  {
    assert g[|g|..] == [];
  }

  /** The index loop that builds the pattern. */
  method CompileGlob(glob: string) returns (pattern: Re)
    ensures pattern == Compiled(glob)
  {
    var parts: seq<Re> := [];
    var i := 0;
    while i < |glob|
      invariant Scanned(glob, i, parts)
    {
      var part, width := NextPart(glob, i);
      ScanStep(glob, i, parts, part, width);
      parts := parts + [part];
      i := i + width;
    }
    ScanEnd(glob, parts);
    pattern := Join(parts);
  }

  predicate Minimatch(path: string, glob: string) {
    Accepts(Compiled(glob), path)
  }

  predicate MatchesAny(path: string, globs: seq<string>) {
    exists g :: g in globs && Minimatch(path, g)
  }

  // ---- what a glob means -------------------------------------------------------------------

  /** The meaning of a glob, read off the path directly: `**` and a slash skip whole directories, a
      trailing `**` skips anything, `*` and `?` stay inside a segment, braces choose. */
  predicate GlobMatch(g: string, p: string)
    decreases |g|
  {
    if g == [] then p == []
    else if StartsWith(g, "**/") then
      GlobMatch(g[3..], p) || exists k :: 0 <= k < |p| && p[k] == '/' && GlobMatch(g[3..], p[k + 1..])
    else if StartsWith(g, "**") then
      exists k :: 0 <= k <= |p| && GlobMatch(g[2..], p[k..])
    else if g[0] == '*' then
      exists k :: 0 <= k <= |p| && '/' !in p[..k] && GlobMatch(g[1..], p[k..])
    else if g[0] == '?' then
      p != [] && p[0] != '/' && GlobMatch(g[1..], p[1..])
    else if g[0] == '{' && Find(g, '}').Some? then
      var close := Find(g, '}').value;
      exists c :: c in SplitCommas(g[1..close]) && StartsWith(p, c) && GlobMatch(g[close + 1..], p[|c|..])
    else
      p != [] && p[0] == g[0] && GlobMatch(g[1..], p[1..])
  }

  // ---- what each construct accepts ---------------------------------------------------------

  lemma {:induction false} AnythingAccepts(s: string)
    ensures In(ANYTHING, s) <==> '\n' !in s
  {
    if s == [] {
    } else {
      AnythingAccepts(s[1..]);
      assert s == [s[0]] + s[1..];
      if '\n' !in s {
        assert In(Dot, s[..1]);
      }
      if In(ANYTHING, s) {
        var k :| 0 < k <= |s| && In(Dot, s[..k]) && In(Star(Dot), s[k..]);
        assert s[..1] == s[..k];
      }
    }
  }

  lemma {:induction false} SegmentAccepts(s: string)
    ensures In(SEGMENT, s) <==> '/' !in s
  {
    if s == [] {
    } else {
      SegmentAccepts(s[1..]);
      assert s == [s[0]] + s[1..];
      if '/' !in s {
        assert In(NotSlash, s[..1]);
      }
      if In(SEGMENT, s) {
        var k :| 0 < k <= |s| && In(NotSlash, s[..k]) && In(Star(NotSlash), s[k..]);
        assert s[..1] == s[..k];
      }
    }
  }

  lemma {:induction false} LiteralAccepts(c: string, s: string)
    ensures In(Literal(c), s) <==> s == c
  {
    if c == [] {
    } else {
      forall k | 0 <= k <= |s| && In(Chr(c[0]), s[..k]) && In(Literal(c[1..]), s[k..]) ensures s == c {
        LiteralAccepts(c[1..], s[k..]);
        assert s == s[..k] + s[k..];
      }
      if s == c {
        LiteralAccepts(c[1..], s[1..]);
        assert In(Chr(c[0]), s[..1]) && In(Literal(c[1..]), s[1..]);
      }
    }
  }

  lemma {:induction false} ChoiceAccepts(choices: seq<string>, s: string)
    requires choices != []
    ensures In(Choice(choices), s) <==> s in choices
  {
    LiteralAccepts(choices[0], s);
    if |choices| <= 1 {
    } else {
      ChoiceAccepts(choices[1..], s);
      assert choices == [choices[0]] + choices[1..];
    }
  }

  lemma SlashEnds(s: string, k: nat)
    requires k <= |s| && s[k..] == ['/'] && '\n' !in s[..k]
    ensures s != [] && s[|s| - 1] == '/' && '\n' !in s
  {
    assert s == s[..k] + ['/'];
  }

  lemma CatAccepts(a: Re, b: Re, p: string)
    ensures In(Cat(a, b), p) <==> exists k :: 0 <= k <= |p| && In(a, p[..k]) && In(b, p[k..])
  {
  }

  lemma AnythingThenSlash(any: Re, slash: Re, s: string)
    requires forall k :: 0 <= k <= |s| ==> (In(any, s[..k]) <==> '\n' !in s[..k])
    requires forall k :: 0 <= k <= |s| ==> (In(slash, s[k..]) <==> s[k..] == ['/'])
    ensures In(Cat(any, slash), s) <==> s != [] && s[|s| - 1] == '/' && '\n' !in s
  {
    CatAccepts(any, slash, s);
    if k :| 0 <= k <= |s| && In(any, s[..k]) && In(slash, s[k..]) {
      SlashEnds(s, k);
    }
    if s != [] && s[|s| - 1] == '/' && '\n' !in s {
      var k := |s| - 1;
      assert In(any, s[..k]) && In(slash, s[k..]);
    }
  }

  lemma AltAccepts(a: Re, b: Re, s: string)
    ensures In(Alt(a, b), s) <==> In(a, s) || In(b, s)
  {
  }

  lemma DirectoriesAccepts(s: string)
    ensures In(DIRECTORIES, s) <==> s == [] || (s[|s| - 1] == '/' && '\n' !in s)
  {
    var any, slash := ANYTHING, Chr('/');
    forall k | 0 <= k <= |s| { AnythingAccepts(s[..k]); }
    AnythingThenSlash(any, slash, s);
    AltAccepts(Cat(any, slash), Eps, s);
  }

  // ---- the translation keeps the meaning ---------------------------------------------------

  lemma CompiledUnfold(g: string)
    requires g != []
    ensures Compiled(g) == Cat(Lex(g).0, Compiled(g[Lex(g).1..]))
  {
    assert Parts(g)[1..] == Parts(g[Lex(g).1..]);
  }

  /** `tails` are the places from which the rest of the glob matches. */
  lemma SkipsToTails(p: string, tails: iset<int>)
    ensures (exists k :: 0 <= k <= |p| && (k == 0 || p[k - 1] == '/') && k in tails)
            <==> 0 in tails || exists k :: 0 <= k < |p| && p[k] == '/' && k + 1 in tails
  {
    if k :| 0 <= k <= |p| && (k == 0 || p[k - 1] == '/') && k in tails {
      if k > 0 {
        var j := k - 1;
        assert p[j] == '/' && j + 1 in tails;
      }
    }
    if k :| 0 <= k < |p| && p[k] == '/' && k + 1 in tails {
      var j := k + 1;
      assert p[j - 1] == '/' && j in tails;
    }
  }

  lemma DirectoriesCase(dirs: Re, tail: Re, p: string)
    requires forall k :: 0 <= k <= |p| ==> (In(dirs, p[..k]) <==> k == 0 || p[k - 1] == '/')
    ensures (exists k :: 0 <= k <= |p| && In(dirs, p[..k]) && In(tail, p[k..]))
            <==> In(tail, p) || exists k :: 0 <= k < |p| && p[k] == '/' && In(tail, p[k + 1..])
  {
    var tails := iset k | 0 <= k <= |p| && In(tail, p[k..]);
    SkipsToTails(p, tails);
    assert p[0..] == p;
  }

  lemma SkipsDirectories(g: string, p: string)
    requires StartsWith(g, "**/")
    ensures GlobMatch(g, p) <==>
      GlobMatch(g[3..], p) || exists k :: 0 <= k < |p| && p[k] == '/' && GlobMatch(g[3..], p[k + 1..])
  {
  }

  lemma ChoiceCase(choices: seq<string>, rest: string, p: string)
    requires choices != []
    requires forall k :: 0 <= k <= |p| ==> (In(Compiled(rest), p[k..]) <==> GlobMatch(rest, p[k..]))
    ensures (exists k :: 0 <= k <= |p| && In(Choice(choices), p[..k]) && In(Compiled(rest), p[k..]))
            <==> exists c :: c in choices && StartsWith(p, c) && GlobMatch(rest, p[|c|..])
  {
    forall k | 0 <= k <= |p| { ChoiceAccepts(choices, p[..k]); }
    if k :| 0 <= k <= |p| && In(Choice(choices), p[..k]) && In(Compiled(rest), p[k..]) {
      var c := p[..k];
      assert c in choices && StartsWith(p, c) && GlobMatch(rest, p[|c|..]);
    }
    if c :| c in choices && StartsWith(p, c) && GlobMatch(rest, p[|c|..]) {
      assert In(Choice(choices), p[..|c|]) && In(Compiled(rest), p[|c|..]);
    }
  }

  lemma SingleCase(g: string, rest: string, p: string)
    requires g != [] && Lex(g) in {(NotSlash, 1), (Chr(g[0]), 1)} && rest == g[1..]
    requires g[0] != '*' && (g[0] == '{' ==> Find(g, '}').None?)
    requires forall k :: 0 <= k <= |p| ==> (In(Compiled(rest), p[k..]) <==> GlobMatch(rest, p[k..]))
    ensures (exists k :: 0 <= k <= |p| && In(Lex(g).0, p[..k]) && In(Compiled(rest), p[k..])) <==> GlobMatch(g, p)
  {
    if k :| 0 <= k <= |p| && In(Lex(g).0, p[..k]) && In(Compiled(rest), p[k..]) {
      assert k == |p[..k]| == 1 && p[..1][0] == p[0];
    }
    if GlobMatch(g, p) {
      assert p[..1] == [p[0]];
      assert In(Lex(g).0, p[..1]) && In(Compiled(rest), p[1..]);
    }
  }

  /** On newline-free paths the compiled pattern accepts exactly what the glob means. */
  lemma {:induction false} CompiledMeansGlob(g: string, p: string)
    requires '\n' !in p
    ensures In(Compiled(g), p) <==> GlobMatch(g, p)
    decreases |g|
  {
    if g == [] {
    } else {
      CompiledUnfold(g);
      var re, rest := Lex(g).0, g[Lex(g).1..];
      forall k | 0 <= k <= |p| ensures In(Compiled(rest), p[k..]) <==> GlobMatch(rest, p[k..]) {
        CompiledMeansGlob(rest, p[k..]);
      }
      CatAccepts(re, Compiled(rest), p);
      assert p[0..] == p;
      if StartsWith(g, "**/") {
        forall k | 0 <= k <= |p| { DirectoriesAccepts(p[..k]); }
        DirectoriesCase(re, Compiled(rest), p);
        SkipsDirectories(g, p);
      } else if StartsWith(g, "**") {
        forall k | 0 <= k <= |p| { AnythingAccepts(p[..k]); }
      } else if g[0] == '*' {
        forall k | 0 <= k <= |p| { SegmentAccepts(p[..k]); }
      } else if g[0] == '{' && Find(g, '}').Some? {
        ChoiceCase(SplitCommas(g[1..Find(g, '}').value]), rest, p);
      } else {
        SingleCase(g, rest, p);
      }
    }
  }

  lemma DoubleStarStops(p: string)
    requires p != [] && '\n' in p[..|p| - 1]
    ensures GlobMatch("**", p) && !Minimatch(p, "**")
  {
    var g := "**";
    assert StartsWith(g, "**") && !StartsWith(g, "**/");
    assert g[2..] == [] && p[|p|..] == [];
    assert GlobMatch(g[2..], p[|p|..]);
    CompiledUnfold(g);
    forall s | In(Compiled(g), s) ensures '\n' !in s {
      var k :| 0 <= k <= |s| && In(ANYTHING, s[..k]) && In(Compiled([]), s[k..]);
      assert s == s[..k];
      AnythingAccepts(s);
    }
  }

  /** The glob with the path's slashes and a `?` for every other character. */
  function Shape(p: string): string {
    if p == [] then [] else [if p[0] == '/' then '/' else '?'] + Shape(p[1..])
  }

  lemma {:induction false} ShapeMatches(p: string)
    ensures GlobMatch(Shape(p), p)
  {
    if p == [] {
    } else {
      ShapeMatches(p[1..]);
      assert Shape(p)[1..] == Shape(p[1..]);
      assert Shape(p)[0] != '*';
    }
  }

  lemma {:induction false} ShapeLength(q: string, p: string)
    requires GlobMatch(Shape(q), p)
    ensures |p| == |q|
  {
    if q == [] {
    } else {
      assert Shape(q)[0] != '*' && Shape(q)[0] != '{';
      assert Shape(q)[1..] == Shape(q[1..]);
      assert !StartsWith(Shape(q), "**") && !StartsWith(Shape(q), "**/");
      ShapeLength(q[1..], p[1..]);
    }
  }

  /** Where the meaning is kept: on newline-free paths the whole glob language behaves as meant, and
      on any other path some glob does not, because `.` stops at a newline and `$` looks past one. */
  lemma MeaningKeptIff(p: string)
    ensures (forall g :: Minimatch(p, g) <==> GlobMatch(g, p)) <==> '\n' !in p
  {
    if '\n' !in p {
      forall g ensures Minimatch(p, g) <==> GlobMatch(g, p) {
        CompiledMeansGlob(g, p);
      }
    } else if '\n' in p[..|p| - 1] {
      DoubleStarStops(p);
    } else {
      var q := p[..|p| - 1];
      assert p == q + [p[|p| - 1]];
      ShapeMatches(q);
      CompiledMeansGlob(Shape(q), q);
      assert Minimatch(p, Shape(q));
      if GlobMatch(Shape(q), p) {
        ShapeLength(q, p);
        assert false;
      }
    }
  }

  function Slashes(s: string): nat {
    if s == [] then 0 else (if s[0] == '/' then 1 else 0) + Slashes(s[1..])
  }

  lemma {:induction false} NoSlashes(s: string)
    requires '/' !in s
    ensures Slashes(s) == 0
  {
    if s == [] {
    } else {
      NoSlashes(s[1..]);
    }
  }

  lemma {:induction false} SlashesAppend(a: string, b: string)
    ensures Slashes(a + b) == Slashes(a) + Slashes(b)
  {
    if a == [] {
      assert a + b == b;
    } else {
      assert (a + b)[1..] == a[1..] + b;
      SlashesAppend(a[1..], b);
    }
  }

  predicate DoubleStarAt(g: string, i: nat) {
    i + 1 < |g| && g[i] == '*' && g[i + 1] == '*'
  }

  predicate NoDoubleStar(g: string) {
    forall i :: 0 <= i < |g| ==> !DoubleStarAt(g, i)
  }

  lemma NoDoubleStarTail(g: string)
    requires g != [] && NoDoubleStar(g)
    ensures NoDoubleStar(g[1..])
  {
    forall i | 0 <= i < |g[1..]| ensures !DoubleStarAt(g[1..], i) {
      assert !DoubleStarAt(g, i + 1);
    }
  }

  lemma NoDoubleStarHead(g: string)
    requires g != [] && NoDoubleStar(g)
    ensures !StartsWith(g, "**") && !StartsWith(g, "**/")
  {
    assert !DoubleStarAt(g, 0);
    if |g| >= 2 { assert g[..2] == [g[0], g[1]]; }
    if |g| >= 3 { assert g[..3] == [g[0], g[1], g[2]]; }
  }

  lemma StarSkips(g: string, p: string) returns (k: nat)
    requires g != [] && g[0] == '*' && !StartsWith(g, "**") && !StartsWith(g, "**/") && GlobMatch(g, p)
    ensures k <= |p| && '/' !in p[..k] && GlobMatch(g[1..], p[k..])
  {
    k :| 0 <= k <= |p| && '/' !in p[..k] && GlobMatch(g[1..], p[k..]);
  }

  lemma OthersTakeOne(g: string, p: string)
    requires g != [] && g[0] != '*' && g[0] != '{' && GlobMatch(g, p)
    ensures p != [] && (p[0] == '/' <==> g[0] == '/') && GlobMatch(g[1..], p[1..])
  {
  }

  /** Without `**` or braces a glob cannot cross a directory boundary. */
  lemma {:induction false} DepthKept(g: string, p: string)
    requires NoDoubleStar(g) && '{' !in g && GlobMatch(g, p)
    ensures Slashes(p) == Slashes(g)
    decreases |g|
  {
    if g == [] {
    } else {
      assert g[0] in g;
      NoDoubleStarHead(g);
      NoDoubleStarTail(g);
      if g[0] == '*' {
        var k := StarSkips(g, p);
        DepthKept(g[1..], p[k..]);
        NoSlashes(p[..k]);
        SlashesAppend(p[..k], p[k..]);
        assert p == p[..k] + p[k..];
      } else {
        OthersTakeOne(g, p);
        DepthKept(g[1..], p[1..]);
      }
    }
  }

  /** The same, said of the compiled matcher on the paths where it means what the glob says. */
  lemma CompiledDepthKept(g: string, p: string)
    requires NoDoubleStar(g) && '{' !in g && '\n' !in p && Minimatch(p, g)
    ensures Slashes(p) == Slashes(g)
  {
    CompiledMeansGlob(g, p);
    DepthKept(g, p);
  }
}
