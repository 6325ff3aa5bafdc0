/** What the dictionary of findings guarantees: when its keys tell findings apart, whom it credits,
    and when the order of the findings does not matter. */
module DedupTheorems {
  import opened Util
  import opened Findings
  import opened Dedup
  import Text

  // ---- keys --------------------------------------------------------------------------------

  predicate ColonFree(s: string) { ':' !in s }

  lemma {:induction false} DigitsAreDigits(n: nat)
    ensures Digits(n) != [] && forall c :: c in Digits(n) ==> '0' <= c <= '9'
  {
    if n < 10 {
    } else {
      DigitsAreDigits(n / 10);
    }
  }

  lemma {:induction false} DigitsInjective(n: nat, m: nat)
    requires Digits(n) == Digits(m)
    ensures n == m
  {
    DigitsAreDigits(n / 10);
    DigitsAreDigits(m / 10);
    var a, b := Digits(n), Digits(m);
    assert a[|a| - 1] == b[|b| - 1];
    if n < 10 || m < 10 {
    } else {
      assert a[..|a| - 1] == Digits(n / 10) && b[..|b| - 1] == Digits(m / 10);
      DigitsInjective(n / 10, m / 10);
    }
  }

  lemma LineTextShape(a: Option<int>)
    ensures ColonFree(LineText(a))
    ensures LineText(a) == [] <==> a.None?
    ensures a.Some? ==> (LineText(a)[0] == '-' <==> a.value < 0)
  {
    if a.Some? {
      var n := if a.value < 0 then -a.value else a.value;
      DigitsAreDigits(n);
      assert Digits(n)[0] in Digits(n);
    }
  }

  lemma LineTextInjective(a: Option<int>, b: Option<int>)
    requires LineText(a) == LineText(b)
    ensures a == b
  {
    LineTextShape(a);
    LineTextShape(b);
    if a.Some? {
      if a.value < 0 {
        assert LineText(a)[1..] == Digits(-a.value) && LineText(b)[1..] == Digits(-b.value);
        DigitsInjective(-a.value, -b.value);
      } else {
        DigitsInjective(a.value, b.value);
      }
    }
  }

  lemma ColonAt(a: string, x: string)
    requires ColonFree(a)
    ensures (a + "::" + x)[|a|] == ':' && forall i :: 0 <= i < |a| ==> (a + "::" + x)[i] != ':'
  {
    forall i | 0 <= i < |a| ensures (a + "::" + x)[i] != ':' {
      assert a[i] in a;
    }
  }

  lemma FirstColon(a: string, x: string, b: string, y: string)
    requires ColonFree(a) && ColonFree(b) && a + "::" + x == b + "::" + y
    ensures a == b && x == y
  {
    ColonAt(a, x);
    ColonAt(b, y);
    var s := a + "::" + x;
    assert |a| == |b|;
    assert a == s[..|a|] && b == s[..|b|];
    assert x == s[|a| + 2..] && y == s[|b| + 2..];
  }

  /** With no colon in the file names, a key determines file, line and normalised title. */
  lemma KeyDeterminesPlace(a: Report, b: Report)
    requires ColonFree(a.file) && ColonFree(b.file)
    ensures DedupKey(a) == DedupKey(b) <==>
      a.file == b.file && a.line == b.line && NormaliseTitle(a.title) == NormaliseTitle(b.title)
  {
    if DedupKey(a) == DedupKey(b) {
      var restA := LineText(a.line) + "::" + NormaliseTitle(a.title);
      var restB := LineText(b.line) + "::" + NormaliseTitle(b.title);
      assert DedupKey(a) == a.file + "::" + restA && DedupKey(b) == b.file + "::" + restB;
      FirstColon(a.file, restA, b.file, restB);
      LineTextShape(a.line);
      LineTextShape(b.line);
      FirstColon(LineText(a.line), NormaliseTitle(a.title), LineText(b.line), NormaliseTitle(b.title));
      LineTextInjective(a.line, b.line);
    }
  }

  lemma {:induction false} StripRightBehind(c: char, s: string)
    requires !Text.IsSpace(c)
    ensures Text.StripRight([c] + s) == [c] + Text.StripRight(s)
  {
    if s == [] {
      assert [c] + s == [c];
    } else if Text.IsSpace(s[|s| - 1]) {
      StripRightBehind(c, s[..|s| - 1]);
      assert ([c] + s)[..|s|] == [c] + s[..|s| - 1];
    }
  }

  /** Without that condition different places share a key: a colon ending the file name passes for
      one that starts the title. */
  lemma KeysCollide(rest: Report, file: string, title: string)
    requires title != [] && !Text.IsSpace(title[0])
    ensures DedupKey(rest.(file := file, line := None, title := ":" + title))
         == DedupKey(rest.(file := file + ":", line := None, title := title))
  {
    StripRightBehind(':', title);
    assert Text.Strip(":" + title) == ":" + Text.Strip(title);
    var stripped := Text.Strip(title);
    assert (":" + stripped)[1..] == stripped;
    assert Text.Lower(":" + stripped) == ":" + Text.Lower(stripped);
    assert (":" + Text.Lower(stripped))[1..] == Text.Lower(stripped);
    assert NormaliseTitle(":" + title) == ":" + NormaliseTitle(title);
    assert file + "::" + "" + "::" + (":" + NormaliseTitle(title))
        == file + ":" + "::" + "" + "::" + NormaliseTitle(title);
  }

  // ---- credit ------------------------------------------------------------------------------

  predicate WellKeyed(stream: seq<Stamped>) {
    forall s :: s in stream ==> s.key == DedupKey(s.report)
  }

  predicate KeysSeparateFiles(stream: seq<Stamped>) {
    forall x, y :: x in stream && y in stream && x.key == y.key ==> x.report.file == y.report.file
  }

  lemma ColonFreeFilesAreSeparated(stream: seq<Stamped>)
    requires WellKeyed(stream) && forall s :: s in stream ==> ColonFree(s.report.file)
    ensures KeysSeparateFiles(stream)
  {
    forall x, y | x in stream && y in stream && x.key == y.key ensures x.report.file == y.report.file {
      KeyDeterminesPlace(x.report, y.report);
    }
  }

  function RawCredit(stream: seq<Stamped>): set<(string, string)> {
    set s | s in stream :: (s.report.file, s.id)
  }

  function RawBlocking(stream: seq<Stamped>): set<string> {
    set s | s in stream && Blocking(s.report.severity) :: s.id
  }

  function TableCredit(t: Table): set<(string, string)> {
    set k, leaf | k in t.byKey && leaf in t.byKey[k].flaggedBy :: (t.byKey[k].report.file, leaf)
  }

  function TableBlocking(t: Table): set<string> {
    set k, leaf | k in t.byKey && leaf in t.byKey[k].flaggedBy && Blocking(t.byKey[k].report.severity) :: leaf
  }

  lemma EntryReporter(stream: seq<Stamped>, k: string, leaf: string) returns (x: Stamped, y: Stamped)
    requires k in Fold(stream).byKey && leaf in Fold(stream).byKey[k].flaggedBy
    ensures x in stream && x.key == k && x.report == Fold(stream).byKey[k].report
    ensures y in stream && y.key == k && y.id == leaf
  {
    FoldShape(stream);
    FlaggedByReporters(stream, k);
    x :| x in stream && x.key == k && x.report == Fold(stream).byKey[k].report;
    y :| y in stream && y.key == k && y.id == leaf;
  }

  lemma ReporterEntry(stream: seq<Stamped>, s: Stamped)
    requires s in stream
    ensures s.key in Fold(stream).byKey && s.id in Fold(stream).byKey[s.key].flaggedBy
  {
    FoldShape(stream);
    FlaggedByReporters(stream, s.key);
  }

  /** While keys tell files apart, every (file, specialist) pair survives, and no other appears. */
  lemma FoldKeepsCredit(stream: seq<Stamped>)
    requires KeysSeparateFiles(stream)
    ensures TableCredit(Fold(stream)) == RawCredit(stream)
  {
    var t := Fold(stream);
    forall s | s in stream ensures (s.report.file, s.id) in TableCredit(t) {
      ReporterEntry(stream, s);
      var x, y := EntryReporter(stream, s.key, s.id);
    }
    forall file, leaf | (file, leaf) in TableCredit(t) ensures (file, leaf) in RawCredit(stream) {
      var k :| k in t.byKey && leaf in t.byKey[k].flaggedBy && t.byKey[k].report.file == file;
      var x, y := EntryReporter(stream, k, leaf);
      assert y.report.file == file;
    }
  }

  /** The reports of a review, given to specialists. */
  function Assigned(ids: seq<string>, reports: seq<Report>): (stream: seq<Stamped>)
    requires |ids| == |reports|
    ensures |stream| == |reports|
    ensures forall i :: 0 <= i < |stream| ==> stream[i] == Stamped(ids[i], DedupKey(reports[i]), reports[i])
  {
    seq(|reports|, i requires 0 <= i < |reports| => Stamped(ids[i], DedupKey(reports[i]), reports[i]))
  }

  /** No two reports on different files share a key. */
  predicate FilesSeparated(reports: seq<Report>) {
    forall r, s :: r in reports && s in reports && DedupKey(r) == DedupKey(s) ==> r.file == s.file
  }

  lemma SeparatedWhoever(ids: seq<string>, reports: seq<Report>)
    requires |ids| == |reports| && FilesSeparated(reports)
    ensures KeysSeparateFiles(Assigned(ids, reports))
  {
    var stream := Assigned(ids, reports);
    forall x, y | x in stream && y in stream && x.key == y.key ensures x.report.file == y.report.file {
      var i :| 0 <= i < |stream| && stream[i] == x;
      var j :| 0 <= j < |stream| && stream[j] == y;
      assert reports[i] in reports && reports[j] in reports;
    }
  }

  /** Everyone is "a" except the specialist of report `j`. */
  function AllButOne(n: nat, j: nat): (ids: seq<string>)
    ensures |ids| == n && forall i :: 0 <= i < n ==> ids[i] == if i == j then "b" else "a"
  {
    seq(n, (i: nat) => if i == j then "b" else "a")
  }

  lemma ReportersOfAllButOne(reports: seq<Report>, j: nat, i: nat)
    requires i < |reports| && j < |reports| && i != j && DedupKey(reports[i]) == DedupKey(reports[j])
    ensures var stream := Assigned(AllButOne(|reports|, j), reports);
      DedupKey(reports[j]) in Fold(stream).byKey && {"a", "b"} <= Fold(stream).byKey[DedupKey(reports[j])].flaggedBy
  {
    var stream := Assigned(AllButOne(|reports|, j), reports);
    assert stream[i] in stream && stream[j] in stream;
    ReporterEntry(stream, stream[i]);
    ReporterEntry(stream, stream[j]);
  }

  lemma OneFirstBest(stream: seq<Stamped>, i: nat, j: nat)
    requires FirstBest(stream, i) && FirstBest(stream, j) && stream[i].key == stream[j].key
    ensures i == j
  {
    assert Beats(stream[i], stream[j]) && Beats(stream[j], stream[i]);
  }

  lemma FirstBestOfAllButOne(reports: seq<Report>, j: nat, w: nat)
    requires j < |reports| && w != j && FirstBest(Assigned(AllButOne(|reports|, |reports|), reports), w)
    ensures FirstBest(Assigned(AllButOne(|reports|, j), reports), w)
  {
    var all, stream := Assigned(AllButOne(|reports|, |reports|), reports), Assigned(AllButOne(|reports|, j), reports);
    assert StringLe("a", "a") && StringLe("a", "b") && !StringLe("b", "a");
    assert all[w].id == stream[w].id == "a";
    forall m | 0 <= m < |stream| && stream[w].key == stream[m].key ensures Beats(stream[w], stream[m]) {
      assert Beats(all[w], all[m]);
    }
    forall m | 0 <= m < w && stream[w].key == stream[m].key ensures !Beats(stream[m], stream[w]) {
      assert !Beats(all[m], all[w]);
    }
  }

  lemma FirstBestWins(stream: seq<Stamped>, w: nat)
    requires FirstBest(stream, w) && Settled(stream, stream[w].key)
    ensures stream[w].key in Fold(stream).byKey && Fold(stream).byKey[stream[w].key].report == stream[w].report
  {
    KeyOfFinding(stream, stream[w]);
    var i := WinnerIsFirstBest(stream, stream[w].key);
    OneFirstBest(stream, i, w);
  }

  lemma NamedSettled(stream: seq<Stamped>, k: string)
    requires forall i :: 0 <= i < |stream| ==> stream[i].id != ""
    ensures Settled(stream, k)
  {
  }

  /** Taking a report away from "a" changes no winner but possibly that report. */
  lemma WinnerOfAllButOne(reports: seq<Report>, j: nat, w: nat)
    requires j < |reports| && w != j && FirstBest(Assigned(AllButOne(|reports|, |reports|), reports), w)
    ensures DedupKey(reports[w]) in Fold(Assigned(AllButOne(|reports|, j), reports)).byKey
    ensures Fold(Assigned(AllButOne(|reports|, j), reports)).byKey[DedupKey(reports[w])].report == reports[w]
  {
    var stream := Assigned(AllButOne(|reports|, j), reports);
    FirstBestOfAllButOne(reports, j, w);
    NamedSettled(stream, stream[w].key);
    FirstBestWins(stream, w);
  }

  lemma CollidingPair(reports: seq<Report>) returns (i: nat, l: nat)
    requires !FilesSeparated(reports)
    ensures i < |reports| && l < |reports|
    ensures DedupKey(reports[i]) == DedupKey(reports[l]) && reports[i].file != reports[l].file
  {
    var r, s :| r in reports && s in reports && DedupKey(r) == DedupKey(s) && r.file != s.file;
    i :| i < |reports| && reports[i] == r;
    l :| l < |reports| && reports[l] == s;
  }

  /** Of two colliding reports, one is not on the file of the record that survives when everyone is "a". */
  lemma Bystander(reports: seq<Report>) returns (w: nat, j: nat)
    requires !FilesSeparated(reports)
    ensures w < |reports| && j < |reports| && reports[w].file != reports[j].file
    ensures DedupKey(reports[w]) == DedupKey(reports[j])
    ensures FirstBest(Assigned(AllButOne(|reports|, |reports|), reports), w)
  {
    var i, l := CollidingPair(reports);
    var all := Assigned(AllButOne(|reports|, |reports|), reports);
    KeyOfFinding(all, all[i]);
    NamedSettled(all, all[i].key);
    w := WinnerIsFirstBest(all, all[i].key);
    j := if reports[w].file == reports[i].file then l else i;
  }

  lemma NotOnFile(reports: seq<Report>, j: nat, file: string)
    requires j < |reports| && reports[j].file != file
    ensures (file, "b") !in RawCredit(Assigned(AllButOne(|reports|, j), reports))
  {
    var stream := Assigned(AllButOne(|reports|, j), reports);
    forall x | x in stream && x.id == "b" ensures x.report.file != file {
      var m :| 0 <= m < |stream| && stream[m] == x;
    }
  }

  /** Two reports on different files under one key: handing one of them to a specialist of its own
      credits that specialist with a file it never reported on. */
  lemma CollisionMovesCredit(reports: seq<Report>) returns (j: nat, file: string)
    requires !FilesSeparated(reports)
    ensures j < |reports|
    ensures var stream := Assigned(AllButOne(|reports|, j), reports);
      && (file, "a") in TableCredit(Fold(stream)) && (file, "b") in TableCredit(Fold(stream))
      && (file, "b") !in RawCredit(stream)
  {
    var w;
    w, j := Bystander(reports);
    file := reports[w].file;
    WinnerOfAllButOne(reports, j, w);
    ReportersOfAllButOne(reports, j, w);
    NotOnFile(reports, j, file);
  }

  /** Coverage credit survives deduplication, whoever reported what, exactly when no two files share
      a key. */
  lemma CreditKeptIff(reports: seq<Report>)
    ensures FilesSeparated(reports) <==> forall ids: seq<string> :: |ids| == |reports| ==>
      TableCredit(Fold(Assigned(ids, reports))) == RawCredit(Assigned(ids, reports))
  {
    if FilesSeparated(reports) {
      forall ids: seq<string> | |ids| == |reports|
        ensures TableCredit(Fold(Assigned(ids, reports))) == RawCredit(Assigned(ids, reports))
      {
        SeparatedWhoever(ids, reports);
        FoldKeepsCredit(Assigned(ids, reports));
      }
    } else {
      var j, file := CollisionMovesCredit(reports);
      assert |AllButOne(|reports|, j)| == |reports|;
    }
  }

  predicate OneFindingEach(stream: seq<Stamped>) {
    forall i, j :: 0 <= i < j < |stream| ==> stream[i].id != stream[j].id
  }

  lemma OwnFinding(stream: seq<Stamped>, x: Stamped, y: Stamped)
    requires OneFindingEach(stream) && x in stream && y in stream && x.id == y.id
    ensures x == y
  {
    var i :| 0 <= i < |stream| && stream[i] == x;
    var j :| 0 <= j < |stream| && stream[j] == y;
    assert i == j;
  }

  /** For a single stream: when no specialist reports twice, its own keys decide. */
  lemma CreditKeptIffOneEach(stream: seq<Stamped>)
    requires OneFindingEach(stream)
    ensures TableCredit(Fold(stream)) == RawCredit(stream) <==> KeysSeparateFiles(stream)
  {
    if KeysSeparateFiles(stream) {
      FoldKeepsCredit(stream);
    } else {
      var x, y :| x in stream && y in stream && x.key == y.key && x.report.file != y.report.file;
      var t := Fold(stream);
      FoldShape(stream);
      FlaggedByReporters(stream, x.key);
      var s := if t.byKey[x.key].report.file == x.report.file then y else x;
      var file := t.byKey[x.key].report.file;
      assert (file, s.id) in TableCredit(t);
      forall s' | s' in stream && s'.id == s.id ensures s'.report.file != file {
        OwnFinding(stream, s, s');
      }
    }
  }

  /** Whoever reported a critical or important finding stays behind one, colons or not. */
  lemma FoldKeepsBlocking(stream: seq<Stamped>)
    ensures RawBlocking(stream) <= TableBlocking(Fold(stream))
  {
    var t := Fold(stream);
    FoldShape(stream);
    forall s | s in stream && Blocking(s.report.severity) ensures s.id in TableBlocking(t) {
      KeepersAreAsSevere(stream, s.key, s);
      FlaggedByReporters(stream, s.key);
      assert s.id in t.byKey[s.key].flaggedBy;
    }
  }

  // ---- order -------------------------------------------------------------------------------

  /** The best findings under a key, if there are several, say the same. */
  ghost predicate BestsAgree(stream: seq<Stamped>) {
    forall x, y :: Best(stream, x) && Best(stream, y) && x.key == y.key ==> x.report == y.report
  }

  /** A specialist that never reports two different findings under one key. */
  predicate OnePerKey(stream: seq<Stamped>) {
    forall x, y :: x in stream && y in stream && x.id == y.id && x.key == y.key ==> x == y
  }

  lemma OnePerKeyBestsAgree(stream: seq<Stamped>)
    requires OnePerKey(stream)
    ensures BestsAgree(stream)
  {
    forall x, y | Best(stream, x) && Best(stream, y) && x.key == y.key ensures x.report == y.report {
      StringLeAntisymmetric(x.id, y.id);
    }
  }

  ghost predicate SameFindings(a: seq<Stamped>, b: seq<Stamped>) {
    forall s :: s in a <==> s in b
  }

  lemma SameMultisetSameFindings(a: seq<Stamped>, b: seq<Stamped>)
    requires multiset(a) == multiset(b)
    ensures SameFindings(a, b)
  {
    forall s ensures s in a <==> s in b {
      assert s in a <==> s in multiset(a);
    }
  }

  /** No unnamed specialist's best finding has a named rival, under any key. */
  ghost predicate Steady(stream: seq<Stamped>) {
    forall k :: Settled(stream, k)
  }

  predicate NamedSources(stream: seq<Stamped>) { forall s :: s in stream ==> s.id != "" }

  lemma WinnerIsBest(stream: seq<Stamped>, k: string) returns (x: Stamped)
    requires Settled(stream, k) && k in Fold(stream).byKey
    ensures Best(stream, x) && x.key == k
    ensures x.report == Fold(stream).byKey[k].report && x.id == Fold(stream).byKey[k].winner
  {
    var i := WinnerIsFirstBest(stream, k);
    FirstBestIsBest(stream, i);
    x := stream[i];
  }

  lemma SameSettled(a: seq<Stamped>, b: seq<Stamped>, k: string)
    requires SameFindings(a, b) && Settled(a, k)
    ensures Settled(b, k)
  {
    forall u, n | Best(b, u) && u.key == k && u.id == "" && n in b && n.key == k ensures n.id == "" {
      assert Best(a, u);
    }
  }

  lemma SameFindingsSameEntry(a: seq<Stamped>, b: seq<Stamped>, k: string)
    requires SameFindings(a, b) && Settled(a, k) && BestsAgree(a)
    requires k in Fold(a).byKey && k in Fold(b).byKey
    ensures Fold(a).byKey[k] == Fold(b).byKey[k]
  {
    FlaggedByReporters(a, k);
    FlaggedByReporters(b, k);
    SameSettled(a, b, k);
    var x := WinnerIsBest(a, k);
    var y := WinnerIsBest(b, k);
    assert Best(a, y);
    StringLeAntisymmetric(x.id, y.id);
  }

  lemma SameFindingsSameTable(a: seq<Stamped>, b: seq<Stamped>)
    requires SameFindings(a, b) && Steady(a) && BestsAgree(a)
    ensures Fold(a).byKey == Fold(b).byKey
  {
    forall k ensures k in Fold(a).byKey <==> k in Fold(b).byKey {
      FoldShape(a);
      FoldShape(b);
    }
    forall k | k in Fold(a).byKey ensures Fold(a).byKey[k] == Fold(b).byKey[k] {
      SameFindingsSameEntry(a, b, k);
    }
  }

  lemma FrontRunner(x: Stamped, stream: seq<Stamped>)
    requires Settled([x] + stream, x.key) && Best([x] + stream, x)
    ensures x.key in Fold([x] + stream).byKey && Fold([x] + stream).byKey[x.key].report == x.report
  {
    var all := [x] + stream;
    FoldShape(all);
    assert all[0] in all;
    var i := WinnerIsFirstBest(all, x.key);
    assert all[i] in all && Beats(all[0], all[i]);
    assert i == 0;
  }

  function ToFront(stream: seq<Stamped>, i: nat): (other: seq<Stamped>)
    requires i < |stream|
    ensures multiset(other) == multiset(stream)
  {
    assert stream == stream[..i] + [stream[i]] + stream[i + 1..];
    [stream[i]] + (stream[..i] + stream[i + 1..])
  }

  function ToBack(stream: seq<Stamped>, i: nat): (other: seq<Stamped>)
    requires i < |stream|
    ensures multiset(other) == multiset(stream)
  {
    assert stream == stream[..i] + [stream[i]] + stream[i + 1..];
    (stream[..i] + stream[i + 1..]) + [stream[i]]
  }

  lemma BestToFront(stream: seq<Stamped>, i: nat)
    requires i < |stream| && Settled(stream, stream[i].key) && Best(stream, stream[i])
    ensures var x, other := stream[i], ToFront(stream, i);
      x.key in Fold(other).byKey && Fold(other).byKey[x.key].report == x.report
  {
    var other := ToFront(stream, i);
    SameMultisetSameFindings(other, stream);
    SameSettled(stream, other, stream[i].key);
    FrontRunner(stream[i], stream[..i] + stream[i + 1..]);
  }

  lemma OnlyEmptyBelowEmpty(s: string)
    ensures StringLe(s, "") <==> s == ""
  {
  }

  /** Whoever is met last leaves a name behind if it has one; an unnamed best leaves none. */
  lemma LastNames(stream: seq<Stamped>, i: nat)
    requires i < |stream|
    ensures stream[i].key in Fold(ToBack(stream, i)).byKey
    ensures stream[i].id != "" ==> Fold(ToBack(stream, i)).byKey[stream[i].key].winner != ""
    ensures stream[i].id == "" && Best(stream, stream[i]) ==> Fold(ToBack(stream, i)).byKey[stream[i].key].winner == ""
  {
    var x, rest := stream[i], stream[..i] + stream[i + 1..];
    FoldSnoc(rest, x);
    FoldShape(rest);
    if x.key in Fold(rest).byKey && x.id == "" && Best(stream, x) {
      var s :| s in rest && s.key == x.key && s.report == Fold(rest).byKey[x.key].report;
      assert s in stream;
      OnlyEmptyBelowEmpty(Fold(rest).byKey[x.key].winner);
    }
  }

  lemma RivalBestsShow(stream: seq<Stamped>)
    requires Steady(stream) && !BestsAgree(stream)
    ensures exists other :: multiset(other) == multiset(stream) && Fold(other).byKey != Fold(stream).byKey
  {
    var x, y :| Best(stream, x) && Best(stream, y) && x.key == y.key && x.report != y.report;
    var i :| 0 <= i < |stream| && stream[i] == x;
    var j :| 0 <= j < |stream| && stream[j] == y;
    BestToFront(stream, i);
    BestToFront(stream, j);
    assert Fold(ToFront(stream, i)).byKey != Fold(ToFront(stream, j)).byKey;
  }

  lemma UnnamedBestShows(stream: seq<Stamped>)
    requires !Steady(stream)
    ensures exists other :: multiset(other) == multiset(stream) && Fold(other).byKey != Fold(stream).byKey
  {
    var k :| !Settled(stream, k);
    var u, n :| Best(stream, u) && u.key == k && u.id == "" && n in stream && n.key == k && n.id != "";
    var i :| 0 <= i < |stream| && stream[i] == u;
    var j :| 0 <= j < |stream| && stream[j] == n;
    LastNames(stream, i);
    LastNames(stream, j);
    assert Fold(ToBack(stream, i)).byKey != Fold(ToBack(stream, j)).byKey;
  }

  /** Shuffling the findings never changes the dictionary exactly when the best under each key agree
      and no unnamed best has a named rival. */
  lemma OrderIrrelevantIff(stream: seq<Stamped>)
    ensures BestsAgree(stream) && Steady(stream) <==>
      forall other :: multiset(other) == multiset(stream) ==> Fold(other).byKey == Fold(stream).byKey
  {
    if BestsAgree(stream) && Steady(stream) {
      forall other | multiset(other) == multiset(stream) ensures Fold(other).byKey == Fold(stream).byKey {
        SameMultisetSameFindings(other, stream);
        SameFindingsSameTable(stream, other);
      }
    } else if Steady(stream) {
      RivalBestsShow(stream);
    } else {
      UnnamedBestShows(stream);
    }
  }

  /** It is enough that specialists are named and none reports twice under one key. */
  lemma NamedAndOnePerKeySuffice(stream: seq<Stamped>)
    requires NamedSources(stream) && OnePerKey(stream)
    ensures BestsAgree(stream) && Steady(stream)
  {
    OnePerKeyBestsAgree(stream);
  }

  lemma FoldFirst(x: Stamped)
    ensures x.key in Fold([x]).byKey && Fold([x]).byKey[x.key] == Entry(x.report, {x.id}, x.id)
  {
    FoldSnoc([], x);
    assert [] + [x] == [x];
  }

  lemma FoldOnTop(stream: seq<Stamped>, s: Stamped)
    requires s.key in Fold(stream).byKey
    ensures s.key in Fold(stream + [s]).byKey
    ensures Fold(stream + [s]).byKey[s.key] == Joined(Fold(stream).byKey[s.key], s)
  {
    FoldSnoc(stream, s);
  }

  /** An unnamed winner is replaced by whoever is met next, so unnamed specialists spoil this. */
  lemma UnnamedSourceSpoilsOrder(r: Report, r': Report, k: string)
    requires r != r' && r.severity == r'.severity
    ensures var x, y, z := Stamped("", k, r), Stamped("b", k, r'), Stamped("a", k, r');
      && k in Fold([x] + [y] + [z]).byKey && k in Fold([x] + [z] + [y]).byKey
      && Fold([x] + [y] + [z]).byKey[k].report == r' && Fold([x] + [z] + [y]).byKey[k].report == r
  {
    var x, y, z := Stamped("", k, r), Stamped("b", k, r'), Stamped("a", k, r');
    assert StringLe("a", "b") && !StringLe("b", "a");
    FoldFirst(x);
    FoldOnTop([x], y);
    FoldOnTop([x] + [y], z);
    FoldOnTop([x], z);
    FoldOnTop([x] + [z], y);
  }
}
