/** First half of finding collection: findings with the same file, line and normalised title collapse
    into one record that remembers everyone who reported it. */
module Dedup {
  import opened Util
  import opened Findings
  import Text

  // ---- keys --------------------------------------------------------------------------------

  function NormaliseTitle(title: string): string {
    Text.CollapseSpaces(Text.Lower(Text.Strip(title)))
  }

  function Digits(n: nat): string {
    if n < 10 then [('0' as int + n) as char] else Digits(n / 10) + [('0' as int + n % 10) as char]
  }

  function IntText(n: int): string {
    if n < 0 then ['-'] + Digits(-n) else Digits(n)
  }

  function LineText(line: Option<int>): string {
    if line.None? then "" else IntText(line.value)
  }

  /** The dictionary key: the three fields joined by double colons. */
  function DedupKey(r: Report): string {
    r.file + "::" + LineText(r.line) + "::" + NormaliseTitle(r.title)
  }

  // ---- the fold ----------------------------------------------------------------------------

  /** A finding with the specialist that reported it and the key it is filed under. */
  datatype Stamped = Stamped(id: string, key: string, report: Report)

  datatype Entry = Entry(report: Report, flaggedBy: set<string>, winner: string)

  /** A dictionary with its insertion order. */
  datatype Table = Table(order: seq<string>, byKey: map<string, Entry>)

  /** `PickWinner` keeps the incumbent: it is more severe, or as severe with an id no greater. */
  predicate Keeps(e: Entry, s: Stamped) {
    var a, b := SeverityRank(e.report.severity), SeverityRank(s.report.severity);
    a > b || (a == b && StringLe(e.winner, s.id))
  }

  function Joined(e: Entry, s: Stamped): Entry {
    if Keeps(e, s) then Entry(e.report, e.flaggedBy + {s.id}, if e.winner != "" then e.winner else s.id)
    else Entry(s.report, e.flaggedBy + {s.id}, s.id)
  }

  function Add(t: Table, s: Stamped): Table {
    if s.key in t.byKey then t.(byKey := t.byKey[s.key := Joined(t.byKey[s.key], s)])
    else Table(t.order + [s.key], t.byKey[s.key := Entry(s.report, {s.id}, s.id)])
  }

  function Fold(stream: seq<Stamped>): Table {
    if stream == [] then Table([], map[]) else Add(Fold(stream[..|stream| - 1]), stream[|stream| - 1])
  }

  function FindingsOf(o: SpecialistOutput): seq<Stamped> {
    if o.status != Completed then [] else Map((r: Report) => Stamped(o.id, DedupKey(r), r), o.findings)
  }

  /** The findings of the completed specialists, in the order they are met. */
  function Stream(outputs: seq<SpecialistOutput>): seq<Stamped> {
    if outputs == [] then []
    else Stream(outputs[..|outputs| - 1]) + FindingsOf(outputs[|outputs| - 1])
  }

  lemma FoldSnoc(stream: seq<Stamped>, s: Stamped)
    ensures Fold(stream + [s]) == Add(Fold(stream), s)
  {
    assert (stream + [s])[..|stream|] == stream;
  }

  method FoldFindings(t0: Table, ghost before: seq<Stamped>, findings: seq<Stamped>) returns (t: Table)
    requires t0 == Fold(before)
    ensures t == Fold(before + findings)
  {
    t := t0;
    assert before + findings[..0] == before;
    for j := 0 to |findings|
      invariant t == Fold(before + findings[..j])
    {
      FoldSnoc(before + findings[..j], findings[j]);
      assert before + findings[..j] + [findings[j]] == before + findings[..j + 1];
      t := Add(t, findings[j]);
    }
    assert findings[..|findings|] == findings;
  }

  method FoldSpecialists(outputs: seq<SpecialistOutput>) returns (t: Table)
    ensures t == Fold(Stream(outputs))
  {
    t := Table([], map[]);
    for i := 0 to |outputs|
      invariant t == Fold(Stream(outputs[..i]))
    {
      var o := outputs[i];
      assert outputs[..i + 1][..i] == outputs[..i];
      if o.status == Completed {
        t := FoldFindings(t, Stream(outputs[..i]), FindingsOf(o));
      } else {
        assert Stream(outputs[..i]) + [] == Stream(outputs[..i]);
      }
    }
    assert outputs[..|outputs|] == outputs;
  }

  // ---- what the fold computes --------------------------------------------------------------

  /** `x` outranks `y` or ties with it: more severe, or as severe with an id no greater. */
  predicate Beats(x: Stamped, y: Stamped) {
    var a, b := SeverityRank(x.report.severity), SeverityRank(y.report.severity);
    a > b || (a == b && StringLe(x.id, y.id))
  }

  /** The first of the best: beats everything under its key, and nothing before it ties with it. */
  ghost predicate FirstBest(stream: seq<Stamped>, i: nat) {
    && i < |stream|
    && (forall j :: 0 <= j < |stream| && stream[i].key == stream[j].key ==> Beats(stream[i], stream[j]))
    && (forall j :: 0 <= j < i && stream[i].key == stream[j].key ==> !Beats(stream[j], stream[i]))
  }

  ghost predicate Explains(stream: seq<Stamped>, i: nat, k: string, e: Entry) {
    i < |stream| && stream[i].key == k && FirstBest(stream, i)
    && e.report == stream[i].report && e.winner == stream[i].id
  }

  /** Nothing under its key is better. */
  predicate Best(stream: seq<Stamped>, x: Stamped) {
    x in stream && forall y :: y in stream && y.key == x.key ==> Beats(x, y)
  }

  /** No unnamed specialist's best finding has a named rival under the key. */
  ghost predicate Settled(stream: seq<Stamped>, k: string) {
    forall u, n :: Best(stream, u) && u.key == k && u.id == "" && n in stream && n.key == k ==> n.id == ""
  }

  lemma {:induction false} FoldOrder(stream: seq<Stamped>)
    ensures var t := Fold(stream); Distinct(t.order) && forall k :: k in t.order <==> k in t.byKey
  {
    if stream == [] {
    } else {
      FoldOrder(stream[..|stream| - 1]);
    }
  }

  lemma {:induction false} KeyOfFinding(stream: seq<Stamped>, s: Stamped)
    requires s in stream
    ensures s.key in Fold(stream).byKey
  {
    var n := |stream| - 1;
    if s in stream[..n] {
      KeyOfFinding(stream[..n], s);
    } else {
      assert s == stream[n];
    }
  }

  lemma {:induction false} FindingOfKey(stream: seq<Stamped>, k: string) returns (s: Stamped)
    requires k in Fold(stream).byKey
    ensures s in stream && s.key == k && s.report == Fold(stream).byKey[k].report
  {
    var n := |stream| - 1;
    s := stream[n];
    if s.key != k || Fold(stream).byKey[k].report != s.report {
      s := FindingOfKey(stream[..n], k);
    }
  }

  lemma FoldShape(stream: seq<Stamped>)
    ensures var t := Fold(stream);
            && Distinct(t.order) && (forall k :: k in t.order <==> k in t.byKey)
            && (forall k :: k in t.byKey <==> exists s :: s in stream && s.key == k)
            && (forall k :: k in t.byKey ==> exists s :: s in stream && s.key == k && s.report == t.byKey[k].report)
  {
    FoldOrder(stream);
    forall s | s in stream ensures s.key in Fold(stream).byKey {
      KeyOfFinding(stream, s);
    }
    forall k | k in Fold(stream).byKey
      ensures exists s :: s in stream && s.key == k && s.report == Fold(stream).byKey[k].report
    {
      var s := FindingOfKey(stream, k);
    }
  }

  function Reporters(stream: seq<Stamped>, k: string): set<string> {
    set s | s in stream && s.key == k :: s.id
  }

  lemma ReportersSnoc(init: seq<Stamped>, last: Stamped, k: string)
    ensures Reporters(init + [last], k) == Reporters(init, k) + if last.key == k then {last.id} else {}
  {
    var all := init + [last];
    assert last in all && forall s :: s in all <==> s in init || s == last;
  }

  lemma NoReporters(stream: seq<Stamped>, k: string)
    requires k !in Fold(stream).byKey
    ensures Reporters(stream, k) == {}
  {
    FoldShape(stream);
  }

  /** A record is flagged by exactly the specialists that reported a finding under its key. */
  lemma {:induction false} FlaggedByReporters(stream: seq<Stamped>, k: string)
    requires k in Fold(stream).byKey
    ensures Fold(stream).byKey[k].flaggedBy == Reporters(stream, k)
  {
    var init, last := stream[..|stream| - 1], stream[|stream| - 1];
    assert stream == init + [last];
    ReportersSnoc(init, last, k);
    if k in Fold(init).byKey {
      FlaggedByReporters(init, k);
    } else {
      NoReporters(init, k);
    }
  }

  lemma StillFirstBest(init: seq<Stamped>, last: Stamped, i: nat)
    requires FirstBest(init, i) && (init[i].key == last.key ==> Beats(init[i], last))
    ensures FirstBest(init + [last], i)
  {
    var all := init + [last];
    assert forall j :: 0 <= j < |init| ==> all[j] == init[j];
  }

  lemma NewFirstBest(init: seq<Stamped>, last: Stamped)
    requires forall j :: 0 <= j < |init| && last.key == init[j].key ==> Beats(last, init[j]) && !Beats(init[j], last)
    ensures FirstBest(init + [last], |init|)
  {
    var all := init + [last];
    assert forall j :: 0 <= j < |init| ==> all[j] == init[j];
    StringLeTotal(last.id, last.id);
  }

  lemma {:induction false} KeepersAreAsSevere(stream: seq<Stamped>, k: string, s: Stamped)
    requires k in Fold(stream).byKey && s in stream && s.key == k
    ensures SeverityRank(s.report.severity) <= SeverityRank(Fold(stream).byKey[k].report.severity)
  {
    var n := |stream| - 1;
    var init, last := stream[..n], stream[n];
    assert stream == init + [last];
    FoldShape(init);
    if s in init {
      KeepersAreAsSevere(init, k, s);
    }
  }

  lemma SettledBefore(init: seq<Stamped>, last: Stamped, k: string)
    requires Settled(init + [last], k)
    requires last.key == k ==>
      (exists t :: t in init && t.key == k && SeverityRank(last.report.severity) <= SeverityRank(t.report.severity))
    ensures Settled(init, k)
  {
    var stream := init + [last];
    assert last in stream && forall s :: s in init ==> s in stream;
    forall u, n | Best(init, u) && u.key == k && u.id == "" && n in init && n.key == k ensures n.id == "" {
      assert Best(stream, u);
    }
  }

  lemma FirstBestIsBest(stream: seq<Stamped>, i: nat)
    requires FirstBest(stream, i)
    ensures Best(stream, stream[i])
  {
    forall y | y in stream && y.key == stream[i].key ensures Beats(stream[i], y) {
      var j :| 0 <= j < |stream| && stream[j] == y;
    }
  }

  /** A newcomer that the incumbent does not beat beats everything the incumbent beat, strictly. */
  lemma Displaces(init: seq<Stamped>, i: nat, last: Stamped)
    requires FirstBest(init, i) && init[i].key == last.key && !Beats(init[i], last)
    ensures forall j :: 0 <= j < |init| && last.key == init[j].key ==> Beats(last, init[j]) && !Beats(init[j], last)
  {
    StringLeTotal(init[i].id, last.id);
    forall j | 0 <= j < |init| && last.key == init[j].key ensures Beats(last, init[j]) && !Beats(init[j], last) {
      assert Beats(init[i], init[j]);
      if StringLe(init[i].id, init[j].id) && StringLe(last.id, init[i].id) {
        StringLeTransitive(last.id, init[i].id, init[j].id);
      }
      if StringLe(init[i].id, init[j].id) && StringLe(init[j].id, last.id) {
        StringLeTransitive(init[i].id, init[j].id, last.id);
      }
    }
  }

  lemma FirstOfItsKey(init: seq<Stamped>, last: Stamped, k: string)
    requires k in Fold(init + [last]).byKey && k !in Fold(init).byKey
    ensures Explains(init + [last], |init|, k, Fold(init + [last]).byKey[k])
  {
    FoldSnoc(init, last);
    forall j | 0 <= j < |init| ensures init[j].key != k {
      KeyOfFinding(init, init[j]);
    }
    NewFirstBest(init, last);
  }

  lemma SeverestSoFar(init: seq<Stamped>, last: Stamped, k: string)
    requires k in Fold(init).byKey && last.key == k
    requires SeverityRank(Fold(init).byKey[k].report.severity) < SeverityRank(last.report.severity)
    ensures k in Fold(init + [last]).byKey && Explains(init + [last], |init|, k, Fold(init + [last]).byKey[k])
  {
    FoldSnoc(init, last);
    forall j | 0 <= j < |init| && init[j].key == k ensures Beats(last, init[j]) && !Beats(init[j], last) {
      KeepersAreAsSevere(init, k, init[j]);
    }
    NewFirstBest(init, last);
  }

  /** The record's content is the first best finding under the key: the highest severity, then the
      least specialist id; unless an unnamed specialist's best finding has a named rival. */
  lemma {:induction false} WinnerIsFirstBest(stream: seq<Stamped>, k: string) returns (i: nat)
    requires Settled(stream, k) && k in Fold(stream).byKey
    ensures Explains(stream, i, k, Fold(stream).byKey[k])
    decreases |stream|, 1
  {
    var n := |stream| - 1;
    var init, last := stream[..n], stream[n];
    assert stream == init + [last];
    FoldShape(init);
    if k !in Fold(init).byKey {
      i := n;
      FirstOfItsKey(init, last, k);
    } else if last.key != k {
      SettledBefore(init, last, k);
      i := WinnerIsFirstBest(init, k);
      StillFirstBest(init, last, i);
    } else if SeverityRank(Fold(init).byKey[k].report.severity) < SeverityRank(last.report.severity) {
      i := n;
      SeverestSoFar(init, last, k);
    } else {
      i := WinnerAmongEquals(init, last, k);
    }
  }

  lemma {:induction false} WinnerAmongEquals(init: seq<Stamped>, last: Stamped, k: string) returns (i: nat)
    requires Settled(init + [last], k) && k in Fold(init).byKey && last.key == k
    requires SeverityRank(last.report.severity) <= SeverityRank(Fold(init).byKey[k].report.severity)
    ensures Explains(init + [last], i, k, Joined(Fold(init).byKey[k], last))
    decreases |init| + 1, 0
  {
    FoldShape(init);
    SettledBefore(init, last, k);
    i := WinnerIsFirstBest(init, k);
    var stream := init + [last];
    assert stream[i] == init[i] && last in stream;
    if Beats(init[i], last) {
      StillFirstBest(init, last, i);
      FirstBestIsBest(stream, i);
      assert init[i].id == "" ==> last.id == "";
    } else {
      Displaces(init, i, last);
      NewFirstBest(init, last);
      i := |init|;
    }
  }
}
