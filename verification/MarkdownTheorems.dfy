/** The reviewers of a row can be told apart again. */
module MarkdownTheorems {
  import opened Util
  import opened Glob
  import opened GlobTheorems
  import opened Markdown

  function Blanked(name: string): string { " " + name }

  lemma BlankAhead(s: string)
    ensures SplitCommas(" " + s) == [Blanked(SplitCommas(s)[0])] + SplitCommas(s)[1..]
  {
    var t := " " + s;
    assert t[1..] == s;
    match Find(s, ',')
    case None =>
    case Some(k) =>
      assert t[..k + 1] == " " + s[..k] && t[k + 2..] == s[k + 1..];
      assert Find(t, ',') == Some(k + 1);
  }

  /** Names without commas, joined by a comma and a blank, are the pieces between the commas again, each
      but the first behind a blank. */
  lemma {:induction false} ReviewersReadBack(names: seq<string>)
    requires names != [] && forall n :: n in names ==> ',' !in n
    ensures SplitCommas(JoinComma(names)) == [names[0]] + Map(Blanked, names[1..])
  {
    assert names[0] in names;
    if |names| == 1 {
      FirstPiece(names[0], "");
    } else {
      var rest := names[1..];
      ReviewersReadBack(rest);
      var tail := JoinComma(rest);
      FirstPiece(names[0], " " + tail);
      assert names[0] + ", " + tail == names[0] + "," + (" " + tail);
      BlankAhead(tail);
    }
  }
}
