/**
 * The heat-wave flag column. At load time every cell is turned into text the
 * way Python's `str` does it and upper-cased; afterwards a row is a
 * heat-wave day exactly when that text is "TRUE".
 */
module Flags {

  /** A cell of the flag column as the spreadsheet reader delivers it; an empty cell is NaN. */
  datatype Cell = Text(s: string) | Boolean(b: bool) | Missing

  /** Python's `str` of the cell value. */
  function CellText(c: Cell): string
  {
    match c
    case Text(s) => s
    case Boolean(b) => if b then "True" else "False"
    case Missing => "nan"
  }

  predicate IsLower(ch: char)
  {
    'a' <= ch <= 'z'
  }

  /** Upper case of one character; letters outside a..z are left alone. */
  function UpperChar(ch: char): (u: char)
    ensures !IsLower(u)
    ensures u == ch || IsLower(ch)
  {
    if IsLower(ch) then (ch as int - 32) as char else ch
  }

  /** Python's `str.upper`, on the ASCII letters. */
  function Upper(s: string): (r: string)
    ensures |r| == |s|
    ensures forall i :: 0 <= i < |s| ==> r[i] == UpperChar(s[i])
  {
    seq(|s|, i requires 0 <= i < |s| => UpperChar(s[i]))
  }

  /** The stored flag: the upper-cased text of the cell. */
  function Normalise(c: Cell): (flag: string)
    ensures |flag| == |CellText(c)|
    ensures forall i :: 0 <= i < |flag| ==> !IsLower(flag[i])
    ensures Upper(flag) == flag
  {
    Upper(CellText(c))
  }

  /** The test every heat-wave filter applies to the stored flag. */
  predicate IsTrueFlag(flag: string)
  {
    flag == "TRUE"
  }

  /** The cells that mark a heat-wave day, stated without upper-casing. */
  predicate MeansTrue(c: Cell)
  {
    match c
    case Boolean(b) => b
    case Missing => false
    case Text(s) =>
      && |s| == 4
      && (s[0] == 't' || s[0] == 'T')
      && (s[1] == 'r' || s[1] == 'R')
      && (s[2] == 'u' || s[2] == 'U')
      && (s[3] == 'e' || s[3] == 'E')
  }

  /** A normalised flag reads TRUE exactly for the boolean true and the text "true" in any case. */
  lemma NormalisedFlagMeansTrue(c: Cell)
    ensures IsTrueFlag(Normalise(c)) <==> MeansTrue(c)
  {
  }
}
