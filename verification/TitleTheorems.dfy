/** What makes two titles the same for deduplication: the same words in small letters, however they
    are spaced; and so what makes two reports share a key. */
module TitleTheorems {
  import opened Util
  import opened Findings
  import opened Text
  import opened Dedup
  import opened DedupTheorems

  // ---- the words between the white space ---------------------------------------------------

  predicate White(c: char) { c in {' ', '\t', '\n', '\r', 11 as char, 12 as char} }

  predicate NoWhite(s: string) { forall k :: 0 <= k < |s| ==> !White(s[k]) }

  /** How far the first word of a text goes. */
  function WordEnd(s: string): (n: nat)
    ensures n <= |s| && NoWhite(s[..n]) && (n < |s| ==> White(s[n]))
    ensures s != [] && !White(s[0]) ==> n > 0
  {
    if s == [] || White(s[0]) then 0
    else
      var n := 1 + WordEnd(s[1..]);
      assert s[..n] == [s[0]] + s[1..][..n - 1];
      n
  }

  /** The words of a text, as splitting it at white space gives them. */
  function Split(s: string): (ws: seq<string>)
    ensures forall w :: w in ws ==> w != [] && NoWhite(w)
    decreases |s|
  {
    if s == [] then []
    else if White(s[0]) then Split(s[1..])
    else [s[..WordEnd(s)]] + Split(s[WordEnd(s)..])
  }

  function JoinBlanks(ws: seq<string>): string {
    if ws == [] then "" else if |ws| == 1 then ws[0] else ws[0] + " " + JoinBlanks(ws[1..])
  }

  lemma {:induction false} WordEndOf(w: string, rest: string)
    requires NoWhite(w) && (rest == [] || White(rest[0]))
    ensures WordEnd(w + rest) == |w|
  {
    if w == [] {
      assert w + rest == rest;
    } else {
      assert (w + rest)[1..] == w[1..] + rest;
      WordEndOf(w[1..], rest);
    }
  }

  lemma SplitFirst(w: string, rest: string)
    requires w != [] && NoWhite(w) && (rest == [] || White(rest[0]))
    ensures Split(w + rest) == [w] + Split(rest)
  {
    var s := w + rest;
    WordEndOf(w, rest);
    assert s[..|w|] == w && s[|w|..] == rest;
    assert s[0] == w[0];
  }

  /** Words joined by blanks split again. */
  lemma {:induction false} SplitJoined(ws: seq<string>)
    requires forall w :: w in ws ==> w != [] && NoWhite(w)
    ensures Split(JoinBlanks(ws)) == ws
  {
    if ws == [] {
    } else if |ws| == 1 {
      assert ws[0] in ws;
      assert ws[0] + [] == ws[0] && ws == [ws[0]];
      SplitFirst(ws[0], []);
    } else {
      assert ws[0] in ws && forall w :: w in ws[1..] ==> w in ws;
      SplitJoined(ws[1..]);
      var rest := " " + JoinBlanks(ws[1..]);
      assert rest[1..] == JoinBlanks(ws[1..]);
      SplitFirst(ws[0], rest);
      assert ws[0] + " " + JoinBlanks(ws[1..]) == ws[0] + rest;
      assert ws == [ws[0]] + ws[1..];
    }
  }

  // ---- normalised titles -------------------------------------------------------------------

  lemma SpacesAreWhite(c: char)
    ensures IsSpace(c) <==> White(c)
    ensures White(LowerChar(c)) <==> White(c)
  {
  }

  lemma {:induction false} SplitStripped(s: string)
    ensures Split(StripLeft(s)) == Split(s)
    ensures StripLeft(s) != [] ==> !White(StripLeft(s)[0])
  {
    if s == [] {
    } else {
      SpacesAreWhite(s[0]);
      if White(s[0]) { SplitStripped(s[1..]); }
    }
  }

  lemma {:induction false} SplitTrailing(s: string, c: char)
    requires White(c)
    ensures Split(s + [c]) == Split(s)
    decreases |s|
  {
    if s == [] {
      assert ([] + [c])[1..] == [];
    } else if White(s[0]) {
      assert (s + [c])[1..] == s[1..] + [c];
      SplitTrailing(s[1..], c);
    } else {
      var n := WordEnd(s);
      var w, rest := s[..n], s[n..];
      assert s + [c] == w + (rest + [c]) && s == w + rest;
      SplitFirst(w, rest + [c]);
      SplitFirst(w, rest);
      SplitTrailing(rest, c);
    }
  }

  lemma {:induction false} SplitStrippedRight(s: string)
    ensures Split(StripRight(s)) == Split(s)
    ensures StripRight(s) != [] ==> !White(StripRight(s)[|StripRight(s)| - 1])
    ensures StripRight(s) <= s
  {
    if s == [] {
    } else {
      var n := |s| - 1;
      SpacesAreWhite(s[n]);
      if White(s[n]) {
        SplitStrippedRight(s[..n]);
        SplitTrailing(s[..n], s[n]);
        assert s[..n] + [s[n]] == s;
      }
    }
  }

  lemma {:induction false} LowerAt(s: string, k: nat)
    requires k < |s|
    ensures Lower(s)[k] == LowerChar(s[k])
  {
    if k == 0 {
    } else {
      LowerAt(s[1..], k - 1);
    }
  }

  lemma {:induction false} LowerPrefix(s: string, n: nat)
    requires n <= |s|
    ensures Lower(s[..n]) == Lower(s)[..n]
  {
    if n == 0 {
    } else {
      LowerPrefix(s[1..], n - 1);
      assert s[..n][1..] == s[1..][..n - 1];
    }
  }

  lemma {:induction false} StripLeftLower(s: string)
    ensures StripLeft(Lower(s)) == Lower(StripLeft(s))
  {
    if s == [] {
    } else {
      SpacesAreWhite(s[0]);
      SpacesAreWhite(LowerChar(s[0]));
      if White(s[0]) { StripLeftLower(s[1..]); }
    }
  }

  lemma {:induction false} StripRightLower(s: string)
    ensures StripRight(Lower(s)) == Lower(StripRight(s))
  {
    if s == [] {
    } else {
      var n := |s| - 1;
      LowerAt(s, n);
      LowerPrefix(s, n);
      SpacesAreWhite(s[n]);
      SpacesAreWhite(LowerChar(s[n]));
      if White(s[n]) { StripRightLower(s[..n]); }
    }
  }

  lemma {:induction false} CollapseWord(w: string, rest: string)
    requires NoWhite(w)
    ensures CollapseSpaces(w + rest) == w + CollapseSpaces(rest)
  {
    if w == [] {
      assert w + rest == rest;
    } else {
      SpacesAreWhite(w[0]);
      assert (w + rest)[1..] == w[1..] + rest;
      CollapseWord(w[1..], rest);
    }
  }

  lemma {:induction false} StripLeftEnds(s: string)
    requires s != [] && !White(s[|s| - 1])
    ensures StripLeft(s) != [] && StripLeft(s)[|StripLeft(s)| - 1] == s[|s| - 1]
  {
    SpacesAreWhite(s[0]);
    if White(s[0]) {
      StripLeftEnds(s[1..]);
    }
  }

  /** A text without white space at either end is collapsed to its words, one blank apart. */
  lemma {:induction false} CollapseJoins(s: string)
    requires s != [] ==> !White(s[0]) && !White(s[|s| - 1])
    ensures CollapseSpaces(s) == JoinBlanks(Split(s))
    decreases |s|
  {
    if s == [] {
    } else {
      var n := WordEnd(s);
      var w, rest := s[..n], s[n..];
      assert s == w + rest;
      CollapseWord(w, rest);
      if rest != [] {
        SpacesAreWhite(rest[0]);
        StripLeftShrinks(rest);
        SplitStripped(rest);
        StripLeftEnds(rest);
        CollapseJoins(StripLeft(rest));
      } else {
        assert w + [] == w;
      }
    }
  }

  /** A normalised title is the title's words in small letters, one blank apart. */
  lemma NormalisedIsWords(title: string)
    ensures NormaliseTitle(title) == JoinBlanks(Split(Lower(title)))
  {
    StripLeftLower(title);
    StripRightLower(StripLeft(title));
    var left := StripLeft(Lower(title));
    SplitStripped(Lower(title));
    SplitStrippedRight(left);
    if StripRight(left) != [] {
      assert StripRight(left)[0] == left[0];
    }
    CollapseJoins(StripRight(left));
  }

  /** Two titles are the same exactly when they have the same words in small letters. */
  lemma SameTitleIff(a: string, b: string)
    ensures NormaliseTitle(a) == NormaliseTitle(b) <==> Split(Lower(a)) == Split(Lower(b))
  {
    NormalisedIsWords(a);
    NormalisedIsWords(b);
    SplitJoined(Split(Lower(a)));
    SplitJoined(Split(Lower(b)));
  }

  /** Where file names hold no colon, two reports share a key exactly when they name the same file and
      line and their titles have the same words in small letters. */
  lemma SameKeyIff(a: Report, b: Report)
    requires ColonFree(a.file) && ColonFree(b.file)
    ensures DedupKey(a) == DedupKey(b) <==>
      a.file == b.file && a.line == b.line && Split(Lower(a.title)) == Split(Lower(b.title))
  {
    SameTitleIff(a.title, b.title);
    if DedupKey(a) == DedupKey(b) {
      KeyDeterminesPlace(a, b);
    }
  }

  /** Small letters: capitals are 32 code points below theirs, and nothing else changes. */
  lemma LowerIs(s: string, k: nat)
    requires k < |s|
    ensures 'A' <= s[k] <= 'Z' ==> 'a' <= Lower(s)[k] <= 'z' && Lower(s)[k] as int == s[k] as int + 32
    ensures !('A' <= s[k] <= 'Z') ==> Lower(s)[k] == s[k]
  {
    LowerAt(s, k);
  }
}
