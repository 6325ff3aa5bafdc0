/** What the compiled globs match, said of whole paths: braces expand to their alternatives, plain
    text matches itself, and the usual globs for file endings match the paths that end so. */
module GlobTheorems {
  import opened Util
  import opened Glob

  // ---- alternatives ------------------------------------------------------------------------

  function JoinCommas(pieces: seq<string>): string
    requires pieces != []
  {
    if |pieces| == 1 then pieces[0] else pieces[0] + "," + JoinCommas(pieces[1..])
  }

  /** Cutting at commas: no piece holds one, and joined by commas the pieces give the text back. */
  lemma {:induction false} CommasCut(s: string)
    ensures forall c :: c in SplitCommas(s) ==> ',' !in c
    ensures JoinCommas(SplitCommas(s)) == s
    decreases |s|
  {
    match Find(s, ',')
    case None =>
    case Some(k) =>
      CommasCut(s[k + 1..]);
      assert s == s[..k] + "," + s[k + 1..];
      assert SplitCommas(s)[1..] == SplitCommas(s[k + 1..]);
  }

  lemma {:induction false} FindBehind(a: string, c: char, b: string)
    requires c !in a
    ensures Find(a, c) == None && Find(a + [c] + b, c) == Some(|a|)
  {
    if a == [] {
      assert a + [c] + b == [c] + b;
    } else {
      assert (a + [c] + b)[1..] == a[1..] + [c] + b;
      FindBehind(a[1..], c, b);
    }
  }

  lemma FirstPiece(first: string, rest: string)
    requires ',' !in first
    ensures SplitCommas(first) == [first] && SplitCommas(first + "," + rest) == [first] + SplitCommas(rest)
  {
    FindBehind(first, ',', rest);
    var s := first + [','] + rest;
    assert s[..|first|] == first && s[|first| + 1..] == rest;
  }

  /** And they are the only such pieces. */
  lemma {:induction false} CommasJoined(pieces: seq<string>)
    requires pieces != [] && forall c :: c in pieces ==> ',' !in c
    ensures SplitCommas(JoinCommas(pieces)) == pieces
  {
    if |pieces| == 1 {
      FirstPiece(pieces[0], "");
      assert pieces == [pieces[0]];
    } else {
      CommasJoined(pieces[1..]);
      FirstPiece(pieces[0], JoinCommas(pieces[1..]));
      assert pieces == [pieces[0]] + pieces[1..];
    }
  }

  lemma LexBrace(g: string, close: nat)
    requires g != [] && g[0] == '{' && Find(g, '}') == Some(close)
    ensures Lex(g) == (Choice(SplitCommas(g[1..close])), close + 1)
  {
    assert forall s: string :: StartsWith(g, s) && s != [] ==> s[0] == g[0];
  }

  lemma BraceUnfold(inner: string, rest: string)
    requires '}' !in inner
    ensures Compiled("{" + inner + "}" + rest) == Cat(Choice(SplitCommas(inner)), Compiled(rest))
  {
    var open := ['{'] + inner;
    var g, close := open + ['}'] + rest, |open|;
    FindBehind(open, '}', rest);
    assert g[1..close] == inner && g[close + 1..] == rest;
    LexBrace(g, close);
    CompiledUnfold(g);
    assert "{" + inner + "}" + rest == g;
  }

  lemma CatOfAlt(a: Re, b: Re, c: Re, p: string)
    ensures In(Cat(Alt(a, b), c), p) <==> In(Cat(a, c), p) || In(Cat(b, c), p)
  {
    CatAccepts(Alt(a, b), c, p);
    CatAccepts(a, c, p);
    CatAccepts(b, c, p);
  }

  /** Braces expand: a choice of alternatives matches what either part of the choice matches. */
  lemma BracesExpand(a: string, b: string, rest: string, p: string)
    requires ',' !in a && '}' !in a && '}' !in b
    ensures Minimatch(p, "{" + a + "," + b + "}" + rest)
       <==> Minimatch(p, "{" + a + "}" + rest) || Minimatch(p, "{" + b + "}" + rest)
  {
    var x, y, tail := Literal(a), Choice(SplitCommas(b)), Compiled(rest);
    BraceUnfold(a + "," + b, rest);
    assert "{" + (a + "," + b) + "}" + rest == "{" + a + "," + b + "}" + rest;
    BraceUnfold(a, rest);
    BraceUnfold(b, rest);
    FirstPiece(a, b);
    var pieces := [a] + SplitCommas(b);
    assert pieces[1..] == SplitCommas(b) && Choice(pieces) == Alt(x, y) && Choice([a]) == x;
    CatOfAlt(x, y, tail, p);
    if p != [] {
      CatOfAlt(x, y, tail, p[..|p| - 1]);
    }
  }

  // ---- plain text --------------------------------------------------------------------------

  predicate Plain(c: char) { c !in "*?{" }

  predicate AllPlain(s: string) { forall i :: 0 <= i < |s| ==> Plain(s[i]) }

  lemma PlainLex(g: string)
    requires g != [] && Plain(g[0])
    ensures Lex(g) == (Chr(g[0]), 1)
  {
    assert forall s: string :: StartsWith(g, s) && s != [] ==> s[0] == g[0];
  }

  lemma OneThen(c: char, tail: Re, p: string)
    ensures In(Cat(Chr(c), tail), p) <==> p != [] && p[0] == c && In(tail, p[1..])
  {
    CatAccepts(Chr(c), tail, p);
    if p != [] && p[0] == c && In(tail, p[1..]) {
      assert p[..1] == [c];
    }
    if k :| 0 <= k <= |p| && In(Chr(c), p[..k]) && In(tail, p[k..]) {
      assert k == |p[..k]| == 1;
    }
  }

  lemma StartsLater(p: string, text: string)
    requires p != [] && text != []
    ensures StartsWith(p, text) <==> p[0] == text[0] && StartsWith(p[1..], text[1..])
  {
    if |text| <= |p| {
      assert p[..|text|] == [p[0]] + p[1..][..|text| - 1];
      assert text == [text[0]] + text[1..];
    }
  }

  /** Plain text matches itself, and what follows it the rest. */
  lemma {:induction false} PlainThen(text: string, rest: string, p: string)
    requires AllPlain(text)
    ensures In(Compiled(text + rest), p) <==> StartsWith(p, text) && In(Compiled(rest), p[|text|..])
  {
    if text == [] {
      assert text + rest == rest && p[0..] == p;
    } else {
      var g := text + rest;
      assert g[1..] == text[1..] + rest;
      PlainLex(g);
      CompiledUnfold(g);
      OneThen(g[0], Compiled(g[1..]), p);
      if p != [] && p[0] == text[0] {
        PlainThen(text[1..], rest, p[1..]);
        StartsLater(p, text);
        if |text| <= |p| {
          assert p[1..][|text| - 1..] == p[|text|..];
        }
      }
    }
  }

  /** Where there is no newline the two readings of the end are one. */
  lemma EndsHere(p: string)
    requires '\n' !in p
    ensures forall r :: Accepts(r, p) <==> In(r, p)
  {
  }

  /** A glob without special characters matches the one path it spells. */
  lemma PlainGlob(g: string, p: string)
    requires AllPlain(g) && '\n' !in p
    ensures Minimatch(p, g) <==> p == g
  {
    assert g + [] == g;
    PlainThen(g, [], p);
    EndsHere(p);
    assert p[..|p|] == p;
    assert Compiled([]) == Eps;
    if StartsWith(p, g) && p[|g|..] == [] {
      assert p == p[..|g|] + p[|g|..];
    }
  }

  // ---- any directory -----------------------------------------------------------------------

  lemma LexDirectories(tail: string)
    ensures Compiled("**/" + tail) == Cat(DIRECTORIES, Compiled(tail))
  {
    var g := "**/" + tail;
    assert g[..3] == "**/" && g[3..] == tail;
    CompiledUnfold(g);
  }

  lemma LexSegment(tail: string)
    requires tail == [] || tail[0] != '*'
    ensures Compiled("*" + tail) == Cat(SEGMENT, Compiled(tail))
  {
    var g := "*" + tail;
    assert g[1..] == tail && (|g| > 1 ==> g[1] != '*');
    assert !StartsWith(g, "**/") && !StartsWith(g, "**") by {
      if |g| >= 2 { assert g[..2] == [g[0], g[1]]; }
      if |g| >= 3 { assert g[..3] == [g[0], g[1], g[2]]; }
    }
    CompiledUnfold(g);
  }

  /** `**` and a slash skip any directories: the rest matches from the start of some segment. */
  lemma AnyDirectory(tail: string, p: string)
    requires '\n' !in p
    ensures Minimatch(p, "**/" + tail)
       <==> exists k :: 0 <= k <= |p| && (k == 0 || p[k - 1] == '/') && Minimatch(p[k..], tail)
  {
    LexDirectories(tail);
    CatAccepts(DIRECTORIES, Compiled(tail), p);
    forall k | 0 <= k <= |p| ensures In(DIRECTORIES, p[..k]) <==> k == 0 || p[k - 1] == '/' {
      DirectoriesAccepts(p[..k]);
    }
    EndsHere(p);
    forall k | 0 <= k <= |p| ensures Minimatch(p[k..], tail) <==> In(Compiled(tail), p[k..]) {
      EndsHere(p[k..]);
    }
  }

  lemma {:induction false} LastSlash(s: string) returns (j: nat)
    ensures j <= |s| && (j == 0 || s[j - 1] == '/') && '/' !in s[j..]
  {
    if s == [] {
      j := 0;
    } else if s[|s| - 1] == '/' {
      j := |s|;
    } else {
      var n := |s| - 1;
      j := LastSlash(s[..n]);
      assert s[j..] == s[..n][j..] + [s[n]];
    }
  }

  lemma SegmentGlob(tail: string, p: string)
    requires '\n' !in p && (tail == [] || tail[0] != '*')
    ensures Minimatch(p, "*" + tail) <==> exists k :: 0 <= k <= |p| && '/' !in p[..k] && Minimatch(p[k..], tail)
  {
    LexSegment(tail);
    CatAccepts(SEGMENT, Compiled(tail), p);
    forall k | 0 <= k <= |p| ensures In(SEGMENT, p[..k]) <==> '/' !in p[..k] {
      SegmentAccepts(p[..k]);
    }
    EndsHere(p);
    forall k | 0 <= k <= |p| ensures Minimatch(p[k..], tail) <==> In(Compiled(tail), p[k..]) {
      EndsHere(p[k..]);
    }
  }

  /** A file of any name in any directory: the rest of the glob has to match some end of the path. */
  lemma AnyFile(tail: string, p: string)
    requires '\n' !in p && (tail == [] || tail[0] != '*')
    ensures Minimatch(p, "**/*" + tail) <==> exists k :: 0 <= k <= |p| && Minimatch(p[k..], tail)
  {
    var star := "*" + tail;
    assert "**/*" + tail == "**/" + star;
    AnyDirectory(star, p);
    if j :| 0 <= j <= |p| && (j == 0 || p[j - 1] == '/') && Minimatch(p[j..], star) {
      SegmentGlob(tail, p[j..]);
      var k :| 0 <= k <= |p[j..]| && '/' !in p[j..][..k] && Minimatch(p[j..][k..], tail);
      assert p[j..][k..] == p[j + k..];
    }
    if k :| 0 <= k <= |p| && Minimatch(p[k..], tail) {
      var j := LastSlash(p[..k]);
      assert p[j..][..k - j] == p[..k][j..] && p[j..][k - j..] == p[k..];
      SegmentGlob(tail, p[j..]);
      assert j == 0 || p[j - 1] == p[..k][j - 1] == '/';
      assert Minimatch(p[j..], star);
    }
  }

  // ---- the globs of the leaves -------------------------------------------------------------

  predicate EndsWith(p: string, text: string) { |text| <= |p| && p[|p| - |text|..] == text }

  lemma ChoiceOfEnd(choices: seq<string>, p: string)
    requires choices != []
    ensures In(Cat(Choice(choices), Compiled([])), p) <==> p in choices
  {
    CatAccepts(Choice(choices), Compiled([]), p);
    ChoiceAccepts(choices, p);
    assert p[..|p|] == p && p[|p|..] == [];
    assert Compiled([]) == Eps;
  }

  lemma {:induction false} NoBraceInside(pieces: seq<string>)
    requires pieces != [] && forall c :: c in pieces ==> '}' !in c
    ensures '}' !in JoinCommas(pieces)
  {
    if |pieces| == 1 {
    } else {
      NoBraceInside(pieces[1..]);
    }
  }

  lemma BracesEnd(endings: seq<string>, p: string)
    requires endings != [] && forall e :: e in endings ==> ',' !in e && '}' !in e
    ensures In(Compiled("{" + JoinCommas(endings) + "}" + []), p) <==> p in endings
  {
    NoBraceInside(endings);
    CommasJoined(endings);
    BraceUnfold(JoinCommas(endings), []);
    ChoiceOfEnd(endings, p);
  }

  /** A dot and a choice of endings matches a dot and one of them. */
  lemma DotEnding(endings: seq<string>, p: string)
    requires endings != [] && forall e :: e in endings ==> ',' !in e && '}' !in e
    requires '\n' !in p
    ensures Minimatch(p, ".{" + JoinCommas(endings) + "}") <==> p != [] && p[0] == '.' && p[1..] in endings
  {
    var braces := "{" + JoinCommas(endings) + "}" + [];
    assert ['.'] + braces == ".{" + JoinCommas(endings) + "}";
    PlainThen(['.'], braces, p);
    EndsHere(p);
    if p != [] {
      BracesEnd(endings, p[1..]);
      assert StartsWith(p, ['.']) <==> p[0] == '.' by { assert p[..1] == [p[0]]; }
    }
  }

  /** The usual glob of a leaf, `**` a slash `*.{ts,js,...}`: it matches exactly the paths with one of the
      endings, in whatever directory. */
  lemma EndingGlobs(endings: seq<string>, p: string)
    requires endings != [] && forall e :: e in endings ==> ',' !in e && '}' !in e
    requires '\n' !in p
    ensures Minimatch(p, "**/*.{" + JoinCommas(endings) + "}") <==> exists e :: e in endings && EndsWith(p, "." + e)
  {
    var tail := ".{" + JoinCommas(endings) + "}";
    assert "**/*" + tail == "**/*.{" + JoinCommas(endings) + "}";
    AnyFile(tail, p);
    forall k | 0 <= k <= |p|
      ensures Minimatch(p[k..], tail) <==> p[k..] != [] && p[k..][0] == '.' && p[k..][1..] in endings
    {
      DotEnding(endings, p[k..]);
    }
    if k :| 0 <= k <= |p| && Minimatch(p[k..], tail) {
      var e := p[k..][1..];
      assert "." + e == p[k..];
      assert e in endings && EndsWith(p, "." + e);
    }
    if e :| e in endings && EndsWith(p, "." + e) {
      var k := |p| - |"." + e|;
      assert p[k..][1..] == e;
      assert Minimatch(p[k..], tail);
    }
  }

  lemma LexAnything()
    ensures Compiled("**") == Cat(ANYTHING, Compiled([]))
  {
    var g := "**";
    assert g[..2] == "**" && g[2..] == [] && !StartsWith(g, "**/");
    CompiledUnfold(g);
  }

  /** A directory's name followed by a slash and `**` matches everything below that directory. */
  lemma DirectoryGlob(name: string, p: string)
    requires AllPlain(name) && '\n' !in p
    ensures Minimatch(p, name + "/**") <==> StartsWith(p, name + "/")
  {
    var below := name + "/";
    assert name + "/**" == below + "**";
    assert AllPlain(below) by {
      forall i | 0 <= i < |below| ensures Plain(below[i]) { assert i < |name| ==> below[i] == name[i]; }
    }
    PlainThen(below, "**", p);
    EndsHere(p);
    if StartsWith(p, below) {
      var rest := p[|below|..];
      LexAnything();
      CatAccepts(ANYTHING, Compiled([]), rest);
      AnythingAccepts(rest);
      assert rest[..|rest|] == rest && rest[|rest|..] == [];
      assert Compiled([]) == Eps;
    }
  }
}
