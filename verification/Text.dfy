/** The string operations the handlers lean on, over ASCII letters and white space. */
module Text {

  function LowerChar(c: char): char {
    if 'A' <= c <= 'Z' then (c as int - 'A' as int + 'a' as int) as char else c
  }

  function Lower(s: string): (r: string)
    ensures |r| == |s|
  {
    if s == [] then [] else [LowerChar(s[0])] + Lower(s[1..])
  }

  predicate IsSpace(c: char) {
    c == ' ' || c == '\t' || c == '\n' || c == '\r' || c == 11 as char || c == 12 as char
  }

  function StripLeft(s: string): string {
    if s != [] && IsSpace(s[0]) then StripLeft(s[1..]) else s
  }

  function StripRight(s: string): string {
    if s != [] && IsSpace(s[|s| - 1]) then StripRight(s[..|s| - 1]) else s
  }

  function Strip(s: string): string { StripRight(StripLeft(s)) }

  lemma StripLeftShrinks(s: string)
    ensures |StripLeft(s)| <= |s|
    ensures s != [] && IsSpace(s[0]) ==> |StripLeft(s)| < |s|
  {
  }

  /** Every run of white space becomes one blank. */
  function CollapseSpaces(s: string): string
    decreases |s|
  {
    if s == [] then []
    else if IsSpace(s[0]) then
      StripLeftShrinks(s);
      [' '] + CollapseSpaces(StripLeft(s))
    else [s[0]] + CollapseSpaces(s[1..])
  }
}
