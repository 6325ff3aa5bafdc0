/** Report tables: escaping cell text, and reading a rendered row back. Rows follow the Tables extension
    of the GitHub Flavored Markdown Spec, section 4.10: cells are separated by pipes, and a pipe
    inside a cell is escaped with a backslash. */
module Markdown {
  import opened Util

  const DASH := "\U{2014}"

  // ---- escaping ----------------------------------------------------------------------------

  predicate AtCrLf(s: string) { |s| >= 2 && s[0] == '\r' && s[1] == '\n' }

  lemma StartsChar(s: string, c: char)
    ensures StartsWith(s, [c]) <==> s != [] && s[0] == c
  {
    if s != [] { assert s[..1] == [s[0]]; }
  }

  lemma StartsCrLf(s: string)
    ensures StartsWith(s, "\r\n") <==> AtCrLf(s)
  {
    if |s| >= 2 { assert s[..2] == [s[0], s[1]]; }
  }

  /** Python's `replace`: leftmost occurrences, not overlapping. */
  function Replace(s: string, what: string, with: string): string
    requires what != []
  {
    if s == [] then []
    else if StartsWith(s, what) then with + Replace(s[|what|..], what, with)
    else [s[0]] + Replace(s[1..], what, with)
  }

  function EscapeText(text: string): string {
    Replace(Replace(Replace(Replace(text, "\\", "\\\\"), "|", "\\|"), "\r\n", " "), "\n", " ")
  }

  function Mdcell(value: Option<string>): string {
    if value.None? then DASH else EscapeText(value.value)
  }

  function EscapeChar(c: char): string {
    if c == '\\' then "\\\\" else if c == '|' then "\\|" else if c == '\n' then " " else [c]
  }

  /** The same in one pass: each character on its own, except that a carriage return and newline count
      as one. */
  function Escaped(s: string): string {
    if s == [] then []
    else if AtCrLf(s) then " " + Escaped(s[2..])
    else EscapeChar(s[0]) + Escaped(s[1..])
  }

  /** Replacing one character works piece by piece. */
  lemma {:induction false} ReplaceCharAppend(a: string, b: string, c: char, with: string)
    ensures Replace(a + b, [c], with) == Replace(a, [c], with) + Replace(b, [c], with)
  {
    if a == [] {
      assert a + b == b;
    } else {
      assert (a + b)[1..] == a[1..] + b;
      ReplaceCharAppend(a[1..], b, c, with);
      StartsChar(a, c);
      StartsChar(a + b, c);
    }
  }

  lemma ReplaceCharOne(x: char, c: char, with: string)
    ensures Replace([x], [c], with) == if x == c then with else [x]
  {
    StartsChar([x], c);
    assert [x][1..] == [];
  }

  /** The first two passes: backslashes, then pipes. */
  function Slashed(s: string): string { Replace(Replace(s, "\\", "\\\\"), "|", "\\|") }

  function SlashedChar(c: char): string {
    if c == '\\' then "\\\\" else if c == '|' then "\\|" else [c]
  }

  lemma SlashedCons(c: char, rest: string)
    ensures Slashed([c] + rest) == SlashedChar(c) + Slashed(rest)
  {
    ReplaceCharAppend([c], rest, '\\', "\\\\");
    ReplaceCharOne(c, '\\', "\\\\");
    var first := if c == '\\' then "\\\\" else [c];
    ReplaceCharAppend(first, Replace(rest, "\\", "\\\\"), '|', "\\|");
    if c == '\\' {
      ReplaceCharAppend("\\", "\\", '|', "\\|");
      ReplaceCharOne('\\', '|', "\\|");
      assert "\\" + "\\" == "\\\\";
    } else {
      ReplaceCharOne(c, '|', "\\|");
    }
  }

  lemma SlashedStart(s: string)
    ensures (Slashed(s) != [] && Slashed(s)[0] == '\n') <==> (s != [] && s[0] == '\n')
  {
    if s != [] {
      assert s == [s[0]] + s[1..];
      SlashedCons(s[0], s[1..]);
    }
  }

  /** The third pass: a carriage return and newline. */
  function Joined(s: string): string { Replace(s, "\r\n", " ") }

  lemma JoinedSkipsOne(c: char, rest: string)
    requires c != '\r'
    ensures Joined([c] + rest) == [c] + Joined(rest)
  {
    StartsCrLf([c] + rest);
    assert ([c] + rest)[1..] == rest;
  }

  lemma JoinedSkips(e: string, rest: string)
    requires 1 <= |e| <= 2 && '\r' !in e
    ensures Joined(e + rest) == e + Joined(rest)
  {
    assert e[0] in e;
    if |e| == 1 {
      JoinedSkipsOne(e[0], rest);
    } else {
      assert e[1] in e && e == [e[0]] + [e[1]] && e + rest == [e[0]] + ([e[1]] + rest);
      JoinedSkipsOne(e[1], rest);
      JoinedSkipsOne(e[0], [e[1]] + rest);
    }
  }

  lemma CarriageReturnNewline(s: string)
    requires AtCrLf(s)
    ensures Replace(Joined(Slashed(s)), "\n", " ") == " " + Replace(Joined(Slashed(s[2..])), "\n", " ")
  {
    var rest := s[2..];
    assert s == ['\r'] + (['\n'] + rest);
    SlashedCons('\r', ['\n'] + rest);
    SlashedCons('\n', rest);
    var x := Slashed(s);
    assert x == "\r\n" + Slashed(rest) && x[2..] == Slashed(rest);
    StartsCrLf(x);
    assert Joined(x) == " " + Joined(Slashed(rest));
    ReplaceCharAppend(" ", Joined(Slashed(rest)), '\n', " ");
    ReplaceCharOne(' ', '\n', " ");
  }

  lemma LoneCarriageReturn(rest: string)
    requires rest == [] || rest[0] != '\n'
    ensures Joined(['\r'] + Slashed(rest)) == ['\r'] + Joined(Slashed(rest))
  {
    SlashedStart(rest);
    var s := ['\r'] + Slashed(rest);
    assert s[1..] == Slashed(rest);
    StartsCrLf(s);
  }

  lemma LastPassOnChar(c: char)
    ensures Replace(SlashedChar(c), "\n", " ") == EscapeChar(c)
  {
    if c == '\\' {
      ReplaceCharAppend("\\", "\\", '\n', " ");
      ReplaceCharOne('\\', '\n', " ");
      assert "\\" + "\\" == "\\\\";
    } else if c == '|' {
      ReplaceCharAppend("\\", "|", '\n', " ");
      ReplaceCharOne('\\', '\n', " ");
      ReplaceCharOne('|', '\n', " ");
      assert "\\" + "|" == "\\|";
    } else {
      ReplaceCharOne(c, '\n', " ");
    }
  }

  lemma {:induction false} JoinedSlashed(s: string)
    ensures Replace(Joined(Slashed(s)), "\n", " ") == Escaped(s)
    decreases |s|
  {
    if s == [] {
    } else {
      var c, rest := s[0], s[1..];
      assert s == [c] + rest;
      SlashedCons(c, rest);
      if AtCrLf(s) {
        CarriageReturnNewline(s);
        JoinedSlashed(s[2..]);
      } else {
        JoinedSlashed(rest);
        if c == '\r' {
          LoneCarriageReturn(rest);
        } else {
          JoinedSkips(SlashedChar(c), Slashed(rest));
        }
        ReplaceCharAppend(SlashedChar(c), Joined(Slashed(rest)), '\n', " ");
        LastPassOnChar(c);
      }
    }
  }

  /** The four chained replacements come to one character map, for every text. */
  lemma ChainIsOnePass(s: string)
    ensures EscapeText(s) == Escaped(s)
  {
    JoinedSlashed(s);
  }

  // ---- reading a row back ------------------------------------------------------------------

  function Behind(prefix: string, pieces: seq<string>): (r: seq<string>)
    requires pieces != []
    ensures r != []
  {
    [prefix + pieces[0]] + pieces[1..]
  }

  /** The pieces between unescaped pipes; a backslash takes the next character along. */
  function SplitPipes(s: string): (pieces: seq<string>)
    ensures pieces != []
  {
    if s == [] then [""]
    else if s[0] == '|' then [""] + SplitPipes(s[1..])
    else if s[0] == '\\' && |s| >= 2 then Behind(s[..2], SplitPipes(s[2..]))
    else Behind(s[..1], SplitPipes(s[1..]))
  }

  function Unescape(s: string): string {
    if s == [] then []
    else if s[0] == '\\' && |s| >= 2 then [s[1]] + Unescape(s[2..])
    else [s[0]] + Unescape(s[1..])
  }

  /** A cell without the blank on either side. */
  function Unpadded(piece: string): string {
    if |piece| >= 2 && piece[0] == ' ' && piece[|piece| - 1] == ' ' then piece[1..|piece| - 1] else piece
  }

  function ReadRow(row: string): seq<string> {
    var pieces := SplitPipes(row);
    if |pieces| < 2 then [] else Map((p: string) => Unescape(Unpadded(p)), pieces[1..|pieces| - 1])
  }

  function RenderRow(a: string, b: string): string {
    "| " + a + " | " + b + " |"
  }

  lemma BehindTwice(a: string, b: string, pieces: seq<string>)
    requires pieces != []
    ensures Behind(a, Behind(b, pieces)) == Behind(a + b, pieces)
  {
    assert a + (b + pieces[0]) == a + b + pieces[0];
    assert Behind(b, pieces)[1..] == pieces[1..];
  }

  lemma SplitPlain(c: char, rest: string)
    requires c != '|' && c != '\\'
    ensures SplitPipes([c] + rest) == Behind([c], SplitPipes(rest))
  {
    assert ([c] + rest)[1..] == rest && ([c] + rest)[..1] == [c];
  }

  lemma SplitPipe(rest: string)
    ensures SplitPipes("|" + rest) == [""] + SplitPipes(rest)
  {
    assert ("|" + rest)[1..] == rest;
  }

  lemma SplitEscape(c: char, rest: string)
    ensures SplitPipes(['\\', c] + rest) == Behind(['\\', c], SplitPipes(rest))
  {
    var s := ['\\', c] + rest;
    assert s[..2] == ['\\', c] && s[2..] == rest;
  }

  /** What survives of a text: its newlines have become blanks. */
  function OneLine(s: string): string {
    if s == [] then []
    else if AtCrLf(s) then " " + OneLine(s[2..])
    else [if s[0] == '\n' then ' ' else s[0]] + OneLine(s[1..])
  }

  /** An escaped text starts with a plain character or an escape pair, and stands for that character. */
  lemma EscapedHead(s: string) returns (e: string, c: char, tail: string)
    requires s != []
    ensures Escaped(s) == e + Escaped(tail) && OneLine(s) == [c] + OneLine(tail) && |tail| < |s|
    ensures e == ['\\', c] || (e == [c] && c != '\\' && c != '|')
  {
    if AtCrLf(s) {
      e, c, tail := " ", ' ', s[2..];
    } else {
      e, c, tail := EscapeChar(s[0]), if s[0] == '\n' then ' ' else s[0], s[1..];
    }
  }

  lemma SplitPiece(e: string, c: char, rest: string)
    requires e == ['\\', c] || (e == [c] && c != '\\' && c != '|')
    ensures SplitPipes(e + rest) == Behind(e, SplitPipes(rest))
  {
    if |e| == 2 {
      SplitEscape(c, rest);
    } else {
      SplitPlain(c, rest);
    }
  }

  lemma SplitLonger(e: string, c: char, tail: string, rest: string)
    requires e == ['\\', c] || (e == [c] && c != '\\' && c != '|')
    requires SplitPipes(tail + rest) == Behind(tail, SplitPipes(rest))
    ensures SplitPipes(e + tail + rest) == Behind(e + tail, SplitPipes(rest))
  {
    SplitPiece(e, c, tail + rest);
    assert e + tail + rest == e + (tail + rest);
    BehindTwice(e, tail, SplitPipes(rest));
  }

  /** No pipe of an escaped text separates anything. */
  lemma {:induction false} SplitEscaped(s: string, rest: string)
    ensures SplitPipes(Escaped(s) + rest) == Behind(Escaped(s), SplitPipes(rest))
    decreases |s|
  {
    if s == [] {
      assert Escaped(s) + rest == rest;
      assert "" + SplitPipes(rest)[0] == SplitPipes(rest)[0];
    } else {
      var e, c, tail := EscapedHead(s);
      SplitEscaped(tail, rest);
      SplitLonger(e, c, Escaped(tail), rest);
    }
  }

  lemma UnescapePlain(c: char, rest: string)
    requires c != '\\'
    ensures Unescape([c] + rest) == [c] + Unescape(rest)
  {
    assert ([c] + rest)[1..] == rest;
  }

  lemma UnescapePair(c: char, rest: string)
    ensures Unescape(['\\', c] + rest) == [c] + Unescape(rest)
  {
    assert (['\\', c] + rest)[2..] == rest;
  }

  lemma {:induction false} UnescapeEscaped(s: string)
    ensures Unescape(Escaped(s)) == OneLine(s)
    decreases |s|
  {
    if s == [] {
    } else {
      var e, c, tail := EscapedHead(s);
      UnescapeEscaped(tail);
      if |e| == 2 {
        UnescapePair(c, Escaped(tail));
      } else {
        UnescapePlain(c, Escaped(tail));
      }
    }
  }

  lemma {:induction false} OneLineKeeps(s: string)
    ensures '\n' !in OneLine(s)
    ensures '\n' !in s ==> OneLine(s) == s
    decreases |s|
  {
    if s == [] {
    } else {
      if AtCrLf(s) {
        OneLineKeeps(s[2..]);
        assert s[1] == '\n';
      } else {
        OneLineKeeps(s[1..]);
        assert s == [s[0]] + s[1..];
      }
    }
  }

  lemma SplitCell(cell: string, rest: string)
    ensures SplitPipes(" " + Escaped(cell) + " " + rest) == Behind(" " + Escaped(cell) + " ", SplitPipes(rest))
  {
    var e := Escaped(cell);
    assert " " + e + " " + rest == [' '] + (e + ([' '] + rest));
    SplitPlain(' ', rest);
    SplitEscaped(cell, [' '] + rest);
    SplitPlain(' ', e + ([' '] + rest));
    BehindTwice(e, " ", SplitPipes(rest));
    BehindTwice(" ", e + " ", SplitPipes(rest));
    assert " " + (e + " ") == " " + e + " ";
  }

  lemma CellThenPipe(cell: string, rest: string)
    ensures SplitPipes(" " + Escaped(cell) + " " + ("|" + rest)) == [" " + Escaped(cell) + " "] + SplitPipes(rest)
  {
    var padded := " " + Escaped(cell) + " ";
    SplitPipe(rest);
    SplitCell(cell, "|" + rest);
    var pieces := [""] + SplitPipes(rest);
    assert padded + "" == padded && pieces[0] == "" && pieces[1..] == SplitPipes(rest);
  }

  lemma RowShape(x: string, y: string)
    ensures "| " + x + " | " + y + " |" == "|" + ((" " + x + " ") + ("|" + ((" " + y + " ") + ("|" + ""))))
  {
  }

  lemma RowPieces(a: string, b: string)
    ensures SplitPipes(RenderRow(Escaped(a), Escaped(b)))
         == [""] + ([" " + Escaped(a) + " "] + ([" " + Escaped(b) + " "] + SplitPipes("")))
  {
    RowShape(Escaped(a), Escaped(b));
    var second := (" " + Escaped(b) + " ") + ("|" + "");
    CellThenPipe(b, "");
    CellThenPipe(a, second);
    SplitPipe((" " + Escaped(a) + " ") + ("|" + second));
  }

  lemma UnpaddedCell(e: string)
    ensures Unpadded(" " + e + " ") == e
  {
    var x := " " + e + " ";
    assert x[1..|x| - 1] == e;
  }

  lemma ReadRendered(a: string, b: string)
    ensures ReadRow(RenderRow(Escaped(a), Escaped(b))) == [OneLine(a), OneLine(b)]
  {
    RowPieces(a, b);
    var x, y := " " + Escaped(a) + " ", " " + Escaped(b) + " ";
    var pieces := [""] + ([x] + ([y] + SplitPipes("")));
    assert |SplitPipes("")| == 1 && pieces[1..|pieces| - 1] == [x, y];
    UnpaddedCell(Escaped(a));
    UnpaddedCell(Escaped(b));
    UnescapeEscaped(a);
    UnescapeEscaped(b);
  }

  /** A rendered row reads back as the cells it was made from exactly when they hold no newline. */
  lemma RowRoundTripIff(a: string, b: string)
    ensures ReadRow(RenderRow(EscapeText(a), EscapeText(b))) == [a, b] <==> '\n' !in a && '\n' !in b
  {
    ChainIsOnePass(a);
    ChainIsOnePass(b);
    ReadRendered(a, b);
    OneLineKeeps(a);
    OneLineKeeps(b);
  }

  // ---- the coverage table ------------------------------------------------------------------

  datatype CoverageRow = CoverageRow(file: Option<string>, reviewers: seq<string>)

  function JoinComma(ss: seq<string>): string {
    if ss == [] then "" else if |ss| == 1 then ss[0] else ss[0] + ", " + JoinComma(ss[1..])
  }

  /** What the two cells of a row are meant to say. */
  function FileText(r: CoverageRow): string { r.file.GetOr(DASH) }

  function ReviewersText(r: CoverageRow): string {
    var names := JoinComma(r.reviewers);
    if names == "" then DASH else names
  }

  const HEADER := ["## Coverage", "", "| File | Reviewed By |", "|------|-----------|"]

  method RenderCoverage(coverage: seq<CoverageRow>) returns (out: seq<string>)
    ensures coverage == [] ==> out == []
    ensures coverage != [] ==> |out| == |coverage| + 5 && out[|out| - 1] == ""
    ensures coverage != [] ==> out[..4] == ["## Coverage", "", "| File | Reviewed By |", "|------|-----------|"]
    ensures coverage != [] ==> forall i :: 0 <= i < |coverage| ==>
      out[4 + i] == RenderRow(Mdcell(coverage[i].file), Mdcell(Some(ReviewersText(coverage[i]))))
  {
    if coverage == [] {
      return [];
    }
    out := HEADER;
    for i := 0 to |coverage|
      invariant |out| == |HEADER| + i && out[..|HEADER|] == HEADER
      invariant forall j :: 0 <= j < i ==>
        out[|HEADER| + j] == RenderRow(Mdcell(coverage[j].file), Mdcell(Some(ReviewersText(coverage[j]))))
    {
      var row := coverage[i];
      var names := JoinComma(row.reviewers);
      out := out + [RenderRow(Mdcell(row.file), Mdcell(Some(if names == "" then DASH else names)))];
    }
    out := out + [""];
  }

  /** The two cells of a row: an em dash stands for a file that is not known and for nobody. */
  lemma RowSays(r: CoverageRow)
    ensures FileText(r) == match r.file case Some(f) => f case None => "\U{2014}"
    ensures r.reviewers == [] ==> ReviewersText(r) == "\U{2014}"
    ensures r.reviewers != [] && r.reviewers[0] != "" ==> ReviewersText(r) == JoinComma(r.reviewers)
    ensures Mdcell(None) == "\U{2014}"
  {
  }

  lemma DashIsPlain()
    ensures EscapeText(DASH) == DASH
  {
    ChainIsOnePass(DASH);
    assert Escaped(DASH[1..]) == [];
  }

  /** A row of the coverage table reads back as its file and its reviewers exactly when neither cell
      holds a newline. */
  lemma CoverageRowReadsBackIff(r: CoverageRow)
    ensures ReadRow(RenderRow(Mdcell(r.file), Mdcell(Some(ReviewersText(r))))) == [FileText(r), ReviewersText(r)]
            <==> '\n' !in FileText(r) && '\n' !in ReviewersText(r)
  {
    DashIsPlain();
    RowRoundTripIff(FileText(r), ReviewersText(r));
  }
}
