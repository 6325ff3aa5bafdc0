/** The two-reviewer rule: who reviewed each changed file, and which files fall short. */
module Coverage {
  import opened Util
  import opened Findings
  import opened Sorting
  import opened Leaves
  import Glob

  datatype Rescue = Rescue(file: string, leaf: string)

  datatype Row = Row(file: string, reviewers: set<string>)

  /** A leaf without an activation block is credited everywhere; one with an empty list nowhere. */
  predicate InScope(leaf: Leaf, file: string) {
    leaf.id != "" && (leaf.wikiGlobs.None? || Glob.MatchesAny(file, leaf.wikiGlobs.value))
  }

  ghost function FromFindings(findings: seq<Record>, file: string): set<string> {
    set r, leaf | r in findings && r.report.file == file && leaf in r.flaggedBy :: leaf
  }

  ghost function FromScope(picked: seq<Leaf>, file: string): set<string> {
    set leaf | leaf in picked && InScope(leaf, file) :: leaf.id
  }

  ghost function FromRescues(rescues: seq<Rescue>, file: string): set<string> {
    set r | r in rescues && r.file == file :: r.leaf
  }

  /** Everyone credited with a file: by a finding, by scope, or by a rescue. */
  ghost function Reviewers(findings: seq<Record>, picked: seq<Leaf>, rescues: seq<Rescue>, file: string): set<string> {
    FromFindings(findings, file) + FromScope(picked, file) + FromRescues(rescues, file)
  }

  // ---- filling the reviewer sets in place --------------------------------------------------

  lemma FindingsSnoc(init: seq<Record>, r: Record, f: string)
    ensures FromFindings(init + [r], f) == FromFindings(init, f) + if r.report.file == f then r.flaggedBy else {}
  {
    assert r in init + [r] && forall x :: x in init + [r] <==> x in init || x == r;
  }

  /** Reviewers are credited with a file only if it changed. */
  function WithCredit(m: map<string, set<string>>, file: string, reviewers: set<string>): map<string, set<string>> {
    if file in m then m[file := m[file] + reviewers] else m
  }

  /** `m` is `m0` with these findings credited. */
  ghost predicate FindingsCredited(m: map<string, set<string>>, m0: map<string, set<string>>, findings: seq<Record>) {
    m.Keys == m0.Keys && forall f :: f in m0 ==> m[f] == m0[f] + FromFindings(findings, f)
  }

  lemma FindingCredited(m: map<string, set<string>>, m0: map<string, set<string>>, init: seq<Record>, r: Record)
    requires FindingsCredited(m, m0, init)
    ensures FindingsCredited(WithCredit(m, r.report.file, r.flaggedBy), m0, init + [r])
  {
    forall f ensures FromFindings(init + [r], f)
                     == FromFindings(init, f) + if r.report.file == f then r.flaggedBy else {}
    {
      FindingsSnoc(init, r, f);
    }
  }

  function FindingsCredit(m0: map<string, set<string>>, findings: seq<Record>): map<string, set<string>> {
    var n := |findings| - 1;
    if n < 0 then m0
    else WithCredit(FindingsCredit(m0, findings[..n]), findings[n].report.file, findings[n].flaggedBy)
  }

  lemma {:induction false} FindingsCreditIs(m0: map<string, set<string>>, findings: seq<Record>)
    ensures FindingsCredited(FindingsCredit(m0, findings), m0, findings)
  {
    if findings == [] {
    } else {
      var n := |findings| - 1;
      FindingsCreditIs(m0, findings[..n]);
      FindingCredited(FindingsCredit(m0, findings[..n]), m0, findings[..n], findings[n]);
      assert findings == findings[..n] + [findings[n]];
    }
  }

  method CreditFindings(m0: map<string, set<string>>, findings: seq<Record>) returns (m: map<string, set<string>>)
    ensures m.Keys == m0.Keys
    ensures forall f :: f in m0 ==> m[f] == m0[f] + FromFindings(findings, f)
  {
    m := m0;
    for i := 0 to |findings|
      invariant m == FindingsCredit(m0, findings[..i])
    {
      assert findings[..i + 1][..i] == findings[..i];
      var r := findings[i];
      if r.report.file in m {
        m := m[r.report.file := m[r.report.file] + r.flaggedBy];
      }
    }
    assert findings[..|findings|] == findings;
    FindingsCreditIs(m0, findings);
  }

  lemma ScopeSnoc(init: seq<Leaf>, leaf: Leaf, f: string)
    ensures FromScope(init + [leaf], f) == FromScope(init, f) + if InScope(leaf, f) then {leaf.id} else {}
  {
    assert leaf in init + [leaf] && forall x :: x in init + [leaf] <==> x in init || x == leaf;
  }

  /** `m` is `m0` with the leaf credited with the files it is in scope of, except those still to do. */
  ghost predicate LeafCredited(m: map<string, set<string>>, m0: map<string, set<string>>, leaf: Leaf,
                               todo: set<string>) {
    && m.Keys == m0.Keys
    && forall f :: f in m0 ==> m[f] == m0[f] + if f !in todo && InScope(leaf, f) then {leaf.id} else {}
  }

  lemma FileCredited(m: map<string, set<string>>, m0: map<string, set<string>>, leaf: Leaf, todo: set<string>,
                     file: string)
    requires LeafCredited(m, m0, leaf, todo) && file in todo && file in m0
    ensures LeafCredited(if InScope(leaf, file) then m[file := m[file] + {leaf.id}] else m, m0, leaf, todo - {file})
  {
  }

  method CreditLeaf(m0: map<string, set<string>>, leaf: Leaf) returns (m: map<string, set<string>>)
    requires leaf.id != ""
    ensures m.Keys == m0.Keys
    ensures forall f :: f in m0 ==> m[f] == m0[f] + if InScope(leaf, f) then {leaf.id} else {}
  {
    m := m0;
    if leaf.wikiGlobs.Some? && leaf.wikiGlobs.value == [] {
      return;
    }
    var todo := m0.Keys;
    while todo != {}
      invariant todo <= m0.Keys && LeafCredited(m, m0, leaf, todo)
      decreases |todo|
    {
      var f :| f in todo;
      var credited := true;
      if leaf.wikiGlobs.Some? {
        credited := Glob.MatchesAny(f, leaf.wikiGlobs.value);
      }
      FileCredited(m, m0, leaf, todo, f);
      if credited {
        m := m[f := m[f] + {leaf.id}];
      }
      todo := todo - {f};
    }
  }

  ghost predicate ScopesCredited(m: map<string, set<string>>, m0: map<string, set<string>>, picked: seq<Leaf>) {
    m.Keys == m0.Keys && forall f :: f in m0 ==> m[f] == m0[f] + FromScope(picked, f)
  }

  lemma ScopeCredited(m': map<string, set<string>>, m: map<string, set<string>>, m0: map<string, set<string>>,
                      init: seq<Leaf>, leaf: Leaf)
    requires ScopesCredited(m, m0, init) && m'.Keys == m.Keys
    requires forall f :: f in m ==> m'[f] == m[f] + if InScope(leaf, f) then {leaf.id} else {}
    ensures ScopesCredited(m', m0, init + [leaf])
  {
    forall f ensures FromScope(init + [leaf], f) == FromScope(init, f) + if InScope(leaf, f) then {leaf.id} else {} {
      ScopeSnoc(init, leaf, f);
    }
  }

  /** The leaf's credit for every file it is in scope of. */
  function LeafCredit(m: map<string, set<string>>, leaf: Leaf): map<string, set<string>> {
    map f | f in m :: m[f] + if InScope(leaf, f) then {leaf.id} else {}
  }

  lemma LeafCreditIs(m': map<string, set<string>>, m: map<string, set<string>>, leaf: Leaf)
    requires m'.Keys == m.Keys
    requires forall f :: f in m ==> m'[f] == m[f] + if InScope(leaf, f) then {leaf.id} else {}
    ensures m' == LeafCredit(m, leaf)
  {
    forall f | f in m ensures m'[f] == LeafCredit(m, leaf)[f] {
    }
  }

  function ScopesCredit(m0: map<string, set<string>>, picked: seq<Leaf>): map<string, set<string>> {
    var n := |picked| - 1;
    if n < 0 then m0 else LeafCredit(ScopesCredit(m0, picked[..n]), picked[n])
  }

  lemma {:induction false} ScopesCreditIs(m0: map<string, set<string>>, picked: seq<Leaf>)
    ensures ScopesCredited(ScopesCredit(m0, picked), m0, picked)
  {
    if picked == [] {
    } else {
      var n := |picked| - 1;
      ScopesCreditIs(m0, picked[..n]);
      ScopeCredited(ScopesCredit(m0, picked), ScopesCredit(m0, picked[..n]), m0, picked[..n], picked[n]);
      assert picked == picked[..n] + [picked[n]];
    }
  }

  method CreditScopes(m0: map<string, set<string>>, picked: seq<Leaf>) returns (m: map<string, set<string>>)
    ensures m.Keys == m0.Keys
    ensures forall f :: f in m0 ==> m[f] == m0[f] + FromScope(picked, f)
  {
    m := m0;
    for i := 0 to |picked|
      invariant m == ScopesCredit(m0, picked[..i])
    {
      assert picked[..i + 1][..i] == picked[..i];
      ghost var before := m;
      if picked[i].id != "" {
        m := CreditLeaf(m, picked[i]);
      }
      LeafCreditIs(m, before, picked[i]);
    }
    assert picked[..|picked|] == picked;
    ScopesCreditIs(m0, picked);
  }

  lemma RescuesSnoc(init: seq<Rescue>, r: Rescue, f: string)
    ensures FromRescues(init + [r], f) == FromRescues(init, f) + if r.file == f then {r.leaf} else {}
  {
    assert r in init + [r] && forall x :: x in init + [r] <==> x in init || x == r;
  }

  ghost predicate RescuesCredited(m: map<string, set<string>>, m0: map<string, set<string>>, rescues: seq<Rescue>) {
    m.Keys == m0.Keys && forall f :: f in m0 ==> m[f] == m0[f] + FromRescues(rescues, f)
  }

  lemma RescueCredited(m: map<string, set<string>>, m0: map<string, set<string>>, init: seq<Rescue>, r: Rescue)
    requires RescuesCredited(m, m0, init)
    ensures RescuesCredited(WithCredit(m, r.file, {r.leaf}), m0, init + [r])
  {
    forall f ensures FromRescues(init + [r], f) == FromRescues(init, f) + if r.file == f then {r.leaf} else {} {
      RescuesSnoc(init, r, f);
    }
  }

  function RescuesCredit(m0: map<string, set<string>>, rescues: seq<Rescue>): map<string, set<string>> {
    var n := |rescues| - 1;
    if n < 0 then m0 else WithCredit(RescuesCredit(m0, rescues[..n]), rescues[n].file, {rescues[n].leaf})
  }

  lemma {:induction false} RescuesCreditIs(m0: map<string, set<string>>, rescues: seq<Rescue>)
    ensures RescuesCredited(RescuesCredit(m0, rescues), m0, rescues)
  {
    if rescues == [] {
    } else {
      var n := |rescues| - 1;
      RescuesCreditIs(m0, rescues[..n]);
      RescueCredited(RescuesCredit(m0, rescues[..n]), m0, rescues[..n], rescues[n]);
      assert rescues == rescues[..n] + [rescues[n]];
    }
  }

  method CreditRescues(m0: map<string, set<string>>, rescues: seq<Rescue>) returns (m: map<string, set<string>>)
    ensures m.Keys == m0.Keys
    ensures forall f :: f in m0 ==> m[f] == m0[f] + FromRescues(rescues, f)
  {
    m := m0;
    for i := 0 to |rescues|
      invariant m == RescuesCredit(m0, rescues[..i])
    {
      assert rescues[..i + 1][..i] == rescues[..i];
      var r := rescues[i];
      if r.file in m {
        m := m[r.file := m[r.file] + {r.leaf}];
      }
    }
    assert rescues[..|rescues|] == rescues;
    RescuesCreditIs(m0, rescues);
  }

  // ---- the matrix --------------------------------------------------------------------------

  /** One row per changed file, by file name. */
  ghost predicate IsMatrix(rows: seq<Row>, findings: seq<Record>, picked: seq<Leaf>, rescues: seq<Rescue>,
                           changed: seq<string>) {
    && (forall i, j :: 0 <= i < j < |rows| ==> rows[i].file != rows[j].file && StringLe(rows[i].file, rows[j].file))
    && (forall f :: f in changed <==> exists i :: 0 <= i < |rows| && rows[i].file == f)
    && (forall i :: 0 <= i < |rows| ==> rows[i].reviewers == Reviewers(findings, picked, rescues, rows[i].file))
  }

  /** The files reviewed by fewer than two leaves, in row order. */
  function Gaps(rows: seq<Row>): seq<string> {
    if rows == [] then []
    else Gaps(rows[..|rows| - 1]) + if |rows[|rows| - 1].reviewers| < 2 then [rows[|rows| - 1].file] else []
  }

  ghost predicate IsRows(rows: seq<Row>, m: map<string, set<string>>) {
    && (forall i, j :: 0 <= i < j < |rows| ==> rows[i].file != rows[j].file && StringLe(rows[i].file, rows[j].file))
    && (forall f :: f in m <==> exists i :: 0 <= i < |rows| && rows[i].file == f)
    && (forall i :: 0 <= i < |rows| ==> rows[i].file in m && rows[i].reviewers == m[rows[i].file])
  }

  lemma MatrixFromCredits(m: map<string, set<string>>, rows: seq<Row>, findings: seq<Record>, picked: seq<Leaf>,
                          rescues: seq<Rescue>, changed: seq<string>)
    requires IsRows(rows, m) && forall f :: f in m <==> f in changed
    requires forall f :: f in m ==> m[f] == Reviewers(findings, picked, rescues, f)
    ensures IsMatrix(rows, findings, picked, rescues, changed)
  {
  }

  method FindGaps(rows: seq<Row>) returns (gaps: seq<string>)
    ensures gaps == Gaps(rows)
  {
    gaps := [];
    for i := 0 to |rows|
      invariant gaps == Gaps(rows[..i])
    {
      assert rows[..i + 1][..i] == rows[..i];
      if |rows[i].reviewers| < 2 {
        gaps := gaps + [rows[i].file];
      }
    }
    assert rows[..|rows|] == rows;
  }

  lemma StringLePreorder()
    ensures TotalPreorder(StringLe)
  {
    forall a: string, b: string ensures StringLe(a, b) || StringLe(b, a) { StringLeTotal(a, b); }
    forall a: string, b: string, c: string | StringLe(a, b) && StringLe(b, c) ensures StringLe(a, c) {
      StringLeTransitive(a, b, c);
    }
  }

  lemma DistinctPermuted(a: seq<string>, b: seq<string>)
    requires Distinct(a) && multiset(a) == multiset(b)
    ensures Distinct(b)
  {
    forall i, j | 0 <= i < j < |b| ensures b[i] != b[j] {
      AtMostOnce(a, b[i]);
      assert b == b[..i] + [b[i]] + b[i + 1..j] + [b[j]] + b[j + 1..];
      assert b[i] == b[j] ==> multiset(b)[b[i]] >= 2;
    }
  }

  lemma SortedDistinct(files: seq<string>)
    requires Distinct(files)
    ensures Distinct(Sort(StringLe, files)) && SortedBy(StringLe, Sort(StringLe, files))
    ensures forall f :: f in Sort(StringLe, files) <==> f in files
  {
    StringLePreorder();
    SortSorted(StringLe, files);
    SortElements(StringLe, files);
    DistinctLength(files, Elements(files));
    SortMultiset(StringLe, files);
    DistinctPermuted(files, Sort(StringLe, files));
  }

  method SortedKeys(m: map<string, set<string>>) returns (files: seq<string>)
    ensures forall f :: f in files <==> f in m
    ensures forall i, j :: 0 <= i < j < |files| ==> files[i] != files[j] && StringLe(files[i], files[j])
  {
    var todo := m.Keys;
    files := [];
    while todo != {}
      invariant todo <= m.Keys && Distinct(files)
      invariant forall f :: f in files <==> f in m.Keys - todo
      decreases |todo|
    {
      var f :| f in todo;
      assert f !in files;
      files := files + [f];
      todo := todo - {f};
    }
    SortedDistinct(files);
    files := Sort(StringLe, files);
  }

  method Rows(m: map<string, set<string>>) returns (rows: seq<Row>)
    ensures IsRows(rows, m)
  {
    var files := SortedKeys(m);
    rows := seq(|files|, i requires 0 <= i < |files| && files[i] in m => Row(files[i], m[files[i]]));
    forall f | f in m ensures exists i :: 0 <= i < |rows| && rows[i].file == f {
      var i :| 0 <= i < |files| && files[i] == f;
      assert rows[i].file == f;
    }
  }

  method VerifyCoverage(findings: seq<Record>, picked: seq<Leaf>, rescues: seq<Rescue>, changed: seq<string>)
      returns (rows: seq<Row>, gaps: seq<string>, violated: bool)
    ensures IsMatrix(rows, findings, picked, rescues, changed)
    ensures gaps == Gaps(rows) && (violated <==> gaps != [])
  {
    var m: map<string, set<string>> := map f | f in changed :: {};
    m := CreditFindings(m, findings);
    m := CreditScopes(m, picked);
    m := CreditRescues(m, rescues);
    rows := Rows(m);
    MatrixFromCredits(m, rows, findings, picked, rescues, changed);
    gaps := FindGaps(rows);
    violated := gaps != [];
  }

  lemma {:induction false} GapAt(rows: seq<Row>, i: nat)
    requires i < |rows| && |rows[i].reviewers| < 2
    ensures rows[i].file in Gaps(rows)
  {
    var n := |rows| - 1;
    if i == n {
    } else {
      GapAt(rows[..n], i);
    }
  }

  lemma {:induction false} GapHasRow(rows: seq<Row>, file: string) returns (i: nat)
    requires file in Gaps(rows)
    ensures i < |rows| && rows[i].file == file && |rows[i].reviewers| < 2
  {
    var n := |rows| - 1;
    if file in Gaps(rows[..n]) {
      i := GapHasRow(rows[..n], file);
    } else {
      i := n;
    }
  }

  lemma GapsExist(rows: seq<Row>)
    ensures Gaps(rows) != [] <==> exists i :: 0 <= i < |rows| && |rows[i].reviewers| < 2
    ensures forall f :: f in Gaps(rows) <==> exists i :: 0 <= i < |rows| && rows[i].file == f && |rows[i].reviewers| < 2
  {
    forall i: nat | i < |rows| && |rows[i].reviewers| < 2 ensures rows[i].file in Gaps(rows) {
      GapAt(rows, i);
    }
    forall f | f in Gaps(rows) ensures exists i :: 0 <= i < |rows| && rows[i].file == f && |rows[i].reviewers| < 2 {
      var i := GapHasRow(rows, f);
    }
    if Gaps(rows) != [] {
      var i := GapHasRow(rows, Gaps(rows)[0]);
    }
  }

  lemma RowOf(rows: seq<Row>, findings: seq<Record>, picked: seq<Leaf>, rescues: seq<Rescue>, changed: seq<string>,
              i: nat)
    requires IsMatrix(rows, findings, picked, rescues, changed) && i < |rows|
    ensures rows[i].file in changed
    ensures rows[i].reviewers == Reviewers(findings, picked, rescues, rows[i].file)
  {
  }

  lemma RowFor(rows: seq<Row>, findings: seq<Record>, picked: seq<Leaf>, rescues: seq<Rescue>, changed: seq<string>,
               file: string) returns (i: nat)
    requires IsMatrix(rows, findings, picked, rescues, changed) && file in changed
    ensures i < |rows| && rows[i].file == file
  {
    i :| i < |rows| && rows[i].file == file;
  }

  /** The rule is violated exactly when some changed file has fewer than two reviewers. */
  lemma ViolatedIff(rows: seq<Row>, findings: seq<Record>, picked: seq<Leaf>, rescues: seq<Rescue>,
                    changed: seq<string>)
    requires IsMatrix(rows, findings, picked, rescues, changed)
    ensures Gaps(rows) != [] <==> exists f :: f in changed && |Reviewers(findings, picked, rescues, f)| < 2
  {
    if Gaps(rows) != [] {
      var i := GapHasRow(rows, Gaps(rows)[0]);
      RowOf(rows, findings, picked, rescues, changed, i);
    }
    if f :| f in changed && |Reviewers(findings, picked, rescues, f)| < 2 {
      var i := RowFor(rows, findings, picked, rescues, changed, f);
      RowOf(rows, findings, picked, rescues, changed, i);
      GapAt(rows, i);
    }
  }
}
