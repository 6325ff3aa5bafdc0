/** When two findings are taken for the same bug, in terms of their places and their words. */
module Similarity {
  import opened Util
  import opened Findings
  import opened SemanticMerge
  import MergeTheorems
  import Text

  // ---- words -------------------------------------------------------------------------------

  predicate InWord(c: char) { 'a' <= c <= 'z' || c in "0123456789" || c == '_' }

  /** `w` stands at `i` as a longest run of small letters, digits and underscores. */
  predicate RunsAt(s: string, i: nat, w: string) {
    && w != [] && i + |w| <= |s| && s[i..i + |w|] == w
    && (forall k :: 0 <= k < |w| ==> InWord(w[k]))
    && (i > 0 ==> !InWord(s[i - 1]))
    && (i + |w| < |s| ==> !InWord(s[i + |w|]))
  }

  ghost predicate Runs(s: string, w: string) { exists i: nat :: RunsAt(s, i, w) }

  lemma {:induction false} LongestRun(s: string)
    ensures forall k :: 0 <= k < WordLength(s) ==> InWord(s[k])
    ensures WordLength(s) < |s| ==> !InWord(s[WordLength(s)])
  {
    if s == [] || !InWord(s[0]) {
    } else {
      LongestRun(s[1..]);
      forall k | 0 <= k < WordLength(s) ensures InWord(s[k]) {
        if k > 0 { assert s[k] == s[1..][k - 1]; }
      }
    }
  }

  predicate AllInWord(s: string, n: nat) { n <= |s| && forall k :: 0 <= k < n ==> InWord(s[k]) }

  lemma RunsFarthest(s: string, w: string, n: nat)
    requires RunsAt(s, 0, w) && n <= |s|
    ensures AllInWord(s, n) <==> n <= |w|
  {
    if n <= |w| {
      assert forall k :: 0 <= k < n ==> s[k] == w[k];
    } else {
      assert !InWord(s[|w|]);
    }
  }

  lemma FirstRun(s: string)
    requires s != [] && InWord(s[0])
    ensures RunsAt(s, 0, s[..WordLength(s)])
    ensures forall i: nat, w :: RunsAt(s, i, w) && i <= WordLength(s) ==> i == 0 && w == s[..WordLength(s)]
  {
    LongestRun(s);
    var n := WordLength(s);
    forall i: nat, w | RunsAt(s, i, w) && i <= n ensures i == 0 && w == s[..n] {
      assert i == 0;
      RunsFarthest(s, w, n);
      RunsFarthest(s, w, |w|);
      RunsFarthest(s, s[..n], |w|);
    }
  }

  /** No run reaches over this place. */
  predicate Parts(s: string, n: nat) { 0 < n < |s| ==> !InWord(s[n - 1]) || !InWord(s[n]) }

  lemma ShiftedRun(s: string, n: nat, i: nat, w: string)
    requires n <= |s| && Parts(s, n)
    ensures RunsAt(s[n..], i, w) <==> RunsAt(s, n + i, w)
  {
    var rest := s[n..];
    if i + |w| <= |rest| {
      assert rest[i..i + |w|] == s[n + i..n + i + |w|];
      if w != [] && InWord(w[0]) && rest[i..i + |w|] == w {
        assert rest[i] == w[0];
      }
    }
  }

  /** Past a place no run reaches over, the runs of the rest are the later runs of the whole. */
  lemma LaterRuns(s: string, n: nat, w: string)
    requires n <= |s| && Parts(s, n)
    ensures Runs(s[n..], w) <==> exists i: nat :: i >= n && RunsAt(s, i, w)
  {
    var rest := s[n..];
    if Runs(rest, w) {
      var i: nat :| RunsAt(rest, i, w);
      ShiftedRun(s, n, i, w);
    }
    if i: nat :| i >= n && RunsAt(s, i, w) {
      ShiftedRun(s, n, i - n, w);
    }
  }

  /** The words of a text are its longest runs of word characters. */
  lemma {:induction false} WordsAreRuns(s: string, w: string)
    ensures w in Words(s) <==> Runs(s, w)
    decreases |s|
  {
    if s == [] {
    } else if IsWordChar(s[0]) {
      var n := WordLength(s);
      FirstRun(s);
      LongestRun(s);
      WordsAreRuns(s[n..], w);
      LaterRuns(s, n, w);
    } else {
      WordsAreRuns(s[1..], w);
      LaterRuns(s, 1, w);
      if Runs(s, w) {
        var i: nat :| RunsAt(s, i, w);
        assert w[0] == s[i] && InWord(w[0]);
      }
    }
  }

  // ---- the words of a finding --------------------------------------------------------------

  lemma {:induction false} WordLengthStops(a: string, c: char, b: string)
    requires !IsWordChar(c)
    ensures WordLength(a + [c] + b) == WordLength(a)
  {
    if a == [] || !IsWordChar(a[0]) {
    } else {
      assert (a + [c] + b)[1..] == a[1..] + [c] + b;
      WordLengthStops(a[1..], c, b);
    }
  }

  lemma WordsAfter(c: char, b: string)
    requires !IsWordChar(c)
    ensures Words([c] + b) == Words(b)
  {
    assert ([c] + b)[1..] == b;
  }

  /** A character that is in no word keeps the words on its two sides apart. */
  lemma {:induction false} WordsApart(a: string, c: char, b: string)
    requires !IsWordChar(c)
    ensures Words(a + [c] + b) == Words(a) + Words(b)
    decreases |a|
  {
    var all := a + [c] + b;
    if a == [] {
      assert all == [c] + b;
      WordsAfter(c, b);
    } else if IsWordChar(a[0]) {
      var n := WordLength(a);
      WordLengthStops(a, c, b);
      assert all[..n] == a[..n] && all[n..] == a[n..] + [c] + b;
      WordsApart(a[n..], c, b);
    } else {
      assert all[1..] == a[1..] + [c] + b;
      WordsApart(a[1..], c, b);
    }
  }

  lemma {:induction false} LowerAppend(a: string, b: string)
    ensures Text.Lower(a + b) == Text.Lower(a) + Text.Lower(b)
  {
    if a == [] {
      assert a + b == b;
    } else {
      assert (a + b)[1..] == a[1..] + b;
      LowerAppend(a[1..], b);
    }
  }

  lemma LowerCons(c: char, s: string)
    ensures Text.Lower([c] + s) == [Text.LowerChar(c)] + Text.Lower(s)
  {
    assert ([c] + s)[1..] == s;
  }

  /** White space at either end holds no words. */
  lemma {:induction false} WordsOfStripped(s: string)
    ensures Words(Text.Lower(Text.StripLeft(s))) == Words(Text.Lower(s))
  {
    if s == [] || !Text.IsSpace(s[0]) {
    } else {
      WordsOfStripped(s[1..]);
      WordsAfter(s[0], Text.Lower(s[1..]));
    }
  }

  lemma {:induction false} WordsOfStrippedRight(s: string)
    ensures Words(Text.Lower(Text.StripRight(s))) == Words(Text.Lower(s))
  {
    var n := |s| - 1;
    if n < 0 || !Text.IsSpace(s[n]) {
    } else {
      WordsOfStrippedRight(s[..n]);
      assert s == s[..n] + [s[n]];
      LowerAppend(s[..n], [s[n]]);
      LowerCons(s[n], []);
      assert [s[n]] + [] == [s[n]] && Text.Lower(s) == Text.Lower(s[..n]) + [s[n]] + [];
      WordsApart(Text.Lower(s[..n]), s[n], []);
    }
  }

  /** The words of a finding: those of its title and those of its description, in small letters. */
  function Vocabulary(r: Report): set<string> {
    Words(Text.Lower(r.title)) + Words(Text.Lower(r.description))
  }

  lemma WordsOfJoined(a: string, b: string)
    ensures Words(Text.Lower(a + (['.'] + ([' '] + b)))) == Words(Text.Lower(a)) + Words(Text.Lower(b))
  {
    LowerAppend(a, ['.'] + ([' '] + b));
    LowerCons('.', [' '] + b);
    LowerCons(' ', b);
    var x, y := Text.Lower(a), [' '] + Text.Lower(b);
    assert x + (['.'] + y) == x + ['.'] + y;
    WordsApart(x, '.', y);
    WordsAfter(' ', Text.Lower(b));
  }

  lemma JoinedText(a: string, b: string)
    ensures a + ". " + b == a + (['.'] + ([' '] + b))
  {
  }

  lemma TextVocabulary(r: Report)
    ensures Words(Text.Lower(FindingText(r))) == Vocabulary(r)
  {
    var s := r.title + ". " + r.description;
    WordsOfStripped(s);
    WordsOfStrippedRight(Text.StripLeft(s));
    WordsOfJoined(r.title, r.description);
    JoinedText(r.title, r.description);
  }

  // ---- alike -------------------------------------------------------------------------------

  predicate SamePlace(a: Report, b: Report) { a.file == b.file && a.line.Some? && a.line == b.line }

  lemma CardinalitiesAdd<T>(x: set<T>, y: set<T>)
    ensures |x + y| == |x - y| + |y - x| + |x * y|
  {
    assert x + y == (x - y) + (y - x) + x * y;
  }

  /** Two findings of one file are related when they share a known line, or when they share at least as
      many words as the two of them do not share. */
  lemma RelatedIff(a: Report, b: Report)
    ensures var x, y := Vocabulary(a), Vocabulary(b);
      Related(a, b) <==>
        || SamePlace(a, b)
        || (a.file == b.file && x + y != {} && |x - y| + |y - x| <= |x * y|)
  {
    TextVocabulary(a);
    TextVocabulary(b);
    CardinalitiesAdd(Vocabulary(a), Vocabulary(b));
  }

  /** When one finding says all the other says, they are alike up to twice as many words. */
  lemma TwiceTheWords(a: Report, b: Report)
    requires a.file == b.file && !SamePlace(a, b) && Vocabulary(a) <= Vocabulary(b)
    ensures Related(a, b) <==> Vocabulary(b) != {} && |Vocabulary(b)| <= 2 * |Vocabulary(a)|
  {
    var x, y := Vocabulary(a), Vocabulary(b);
    RelatedIff(a, b);
    assert x - y == {} && x * y == x && x + y == y && y == x + (y - x);
  }

  /** Two findings of one file in the same place, or with the same words, become one record. */
  lemma LikeFindingsMeet(fs: seq<Record>, i: nat, j: nat)
    requires i < |fs| && j < |fs| && fs[i].report.file == fs[j].report.file
    requires
      || (fs[i].report.line.Some? && fs[i].report.line == fs[j].report.line)
      || (Vocabulary(fs[i].report) == Vocabulary(fs[j].report) && Vocabulary(fs[i].report) != {})
    ensures exists t :: 0 <= t < |Merged(fs)| && i in GroupOf(fs, t) && j in GroupOf(fs, t)
  {
    var x := Vocabulary(fs[i].report);
    assert x - x == {} && x * x == x;
    RelatedIff(fs[i].report, fs[j].report);
    EdgeLinks(fs, i, j);
    MergeTheorems.SameGroupIffLinked(fs, i, j);
  }

  /** Neither in the same place nor with a word in common, or not in the same file at all. */
  predicate Strangers(a: Report, b: Report) {
    a.file != b.file || ((a.line.None? || a.line != b.line) && Vocabulary(a) !! Vocabulary(b))
  }

  lemma StrangersUnrelated(a: Report, b: Report)
    requires Strangers(a, b)
    ensures !Related(a, b)
  {
    RelatedIff(a, b);
    var x, y := Vocabulary(a), Vocabulary(b);
    if a.file == b.file {
      assert x * y == {} && x - y == x && y - x == y;
      if x + y != {} {
        var w :| w in x + y;
        assert w in x || w in y;
      }
    }
  }

  /** A list of strangers is left alone. */
  lemma StrangersStay(fs: seq<Record>)
    requires forall i, j :: 0 <= i < j < |fs| ==> Strangers(fs[i].report, fs[j].report)
    ensures Merged(fs) == fs
  {
    forall i: nat, j: nat | Edge(fs, i, j) ensures i == j {
      if i < j {
        StrangersUnrelated(fs[i].report, fs[j].report);
      } else if j < i {
        StrangersUnrelated(fs[j].report, fs[i].report);
        RelatedSymmetric(fs[i].report, fs[j].report);
      }
    }
    MergeTheorems.UnrelatedUnchanged(fs);
  }

  // ---- who speaks for a group --------------------------------------------------------------

  function Confidence(r: Record): real { match r.report.confidence case Some(c) => c case None => 0.0 }

  /** More severe, or as severe and reported with more confidence; none counts as zero. */
  predicate Heavier(a: Record, b: Record) {
    var x, y := SeverityRank(a.report.severity), SeverityRank(b.report.severity);
    x > y || (x == y && Confidence(a) > Confidence(b))
  }

  /** The first of the heaviest. */
  predicate Leads(rs: seq<Record>, p: nat) {
    && p < |rs|
    && (forall k :: 0 <= k < p ==> Heavier(rs[p], rs[k]))
    && (forall k :: p < k < |rs| ==> !Heavier(rs[k], rs[p]))
  }

  function At(fs: seq<Record>, ms: seq<nat>): (rs: seq<Record>)
    requires Within(fs, ms)
    ensures |rs| == |ms| && forall k :: 0 <= k < |ms| ==> rs[k] == fs[ms[k]]
  {
    seq(|ms|, k requires 0 <= k < |ms| && ms[k] < |fs| => fs[ms[k]])
  }

  lemma NewcomerLeads(init: seq<Record>, q: nat, last: Record)
    requires Leads(init, q) && Heavier(last, init[q])
    ensures Leads(init + [last], |init|)
  {
    forall k | 0 <= k < |init| ensures Heavier(last, init[k]) {
      assert k < q ==> Heavier(init[q], init[k]);
      assert k > q ==> !Heavier(init[k], init[q]);
    }
  }

  lemma NewcomerFollows(init: seq<Record>, q: nat, last: Record)
    requires Leads(init, q) && !Heavier(last, init[q])
    ensures Leads(init + [last], q)
  {
    var all := init + [last];
    assert all[q] == init[q] && forall k :: 0 <= k < |init| ==> all[k] == init[k];
  }

  lemma HeaviestStep(fs: seq<Record>, init: seq<nat>, last: nat)
    requires InRange(fs, init) && last < |fs|
    ensures var rep := Heaviest(fs, init);
      Heaviest(fs, init + [last]) == if Heavier(fs[last], fs[rep]) then last else rep
  {
    assert (init + [last])[..|init|] == init;
  }

  /** A group is represented by the first of its heaviest members. */
  lemma {:induction false} FirstHeaviest(fs: seq<Record>, ms: seq<nat>) returns (p: nat)
    requires InRange(fs, ms)
    ensures p < |ms| && Heaviest(fs, ms) == ms[p] && Leads(At(fs, ms), p)
  {
    var n := |ms| - 1;
    if n == 0 {
      p := 0;
    } else {
      p := FirstHeaviest(fs, ms[..n]);
      assert ms == ms[..n] + [ms[n]];
      HeaviestStep(fs, ms[..n], ms[n]);
      var init, last := At(fs, ms[..n]), fs[ms[n]];
      assert At(fs, ms) == init + [last];
      if Heavier(last, init[p]) {
        NewcomerLeads(init, p, last);
        p := n;
      } else {
        NewcomerFollows(init, p, last);
      }
    }
  }

  lemma StrongestConfidence(fs: seq<Record>, ms: seq<nat>)
    requires InRange(fs, ms)
    ensures var members, r := At(fs, ms), Represent(fs, ms);
      && (forall m :: m in members && Confidence(m) > 0.0 ==> Confidence(r) >= Confidence(m))
      && (exists m :: m in members && Confidence(r) == Confidence(m))
  {
    var members := At(fs, ms);
    forall m | m in members ensures exists k :: 0 <= k < |ms| && m == fs[ms[k]] {
      var k :| 0 <= k < |members| && members[k] == m;
    }
    var rep := MergeTheorems.Representative(fs, ms);
    var k :| 0 <= k < |ms| && Weight(Represent(fs, ms)) == Weight(fs[ms[k]]);
    assert members[k] in members;
  }

  /** The record of a group of two or more: its first heaviest member with everyone's flags, the number of
      members, and the highest confidence unless that is zero; a lone finding is left as it is. */
  lemma RecordOfGroup(fs: seq<Record>, t: nat) returns (p: nat)
    requires t < |Merged(fs)|
    ensures var members, r := At(fs, GroupOf(fs, t)), Merged(fs)[t];
      && Leads(members, p)
      && (|members| == 1 ==> r == members[p])
      && (|members| > 1 ==> r.mergedCount == Some(|members|) && r.winner == members[p].winner)
      && r.report == members[p].report.(confidence := r.report.confidence)
      && (forall m :: m in members && Confidence(m) > 0.0 ==> Confidence(r) >= Confidence(m))
      && (exists m :: m in members && Confidence(r) == Confidence(m))
  {
    var ms := GroupOf(fs, t);
    p := FirstHeaviest(fs, ms);
    StrongestConfidence(fs, ms);
  }
}
