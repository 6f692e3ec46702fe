/** White space and comments as they are written between tokens. */
module Gaps {
  /** A white character, a line comment with its newline, or a block comment. */
  datatype Piece = White(c: char) | LineComment(text: string) | BlockComment(text: string)

  /** `*` followed by `/` somewhere. */
  predicate Closes(text: string) {
    exists i :: 0 <= i < |text| - 1 && text[i] == '*' && text[i + 1] == '/'
  }

  predicate PieceOk(p: Piece) {
    match p
    case White(c) => c == ' ' || c == '\t' || c == '\n' || c == '\r' || c == '\U{000C}'
    case LineComment(text) => '\n' !in text
    case BlockComment(text) => !Closes(text)
  }

  predicate PiecesOk(ps: seq<Piece>) {
    forall i :: 0 <= i < |ps| ==> PieceOk(ps[i])
  }

  function PieceText(p: Piece): (s: string)
    ensures s != ""
  {
    match p
    case White(c) => [c]
    case LineComment(text) => "//" + text + "\n"
    case BlockComment(text) => "/*" + text + "*/"
  }

  function GapText(ps: seq<Piece>): string {
    if ps == [] then "" else PieceText(ps[0]) + GapText(ps[1..])
  }

  /** A line comment that the end of the text ends. */
  predicate LastLine(s: string) {
    |s| >= 2 && s[0] == '/' && s[1] == '/' && '\n' !in s
  }

  /** White space and comments only; the last comment may lack its newline at the end of the text. */
  ghost predicate IsGap(s: string, last: bool) {
    exists ps, tail :: GapOf(s, last, ps, tail)
  }

  predicate GapOf(s: string, last: bool, ps: seq<Piece>, tail: string) {
    PiecesOk(ps) && s == GapText(ps) + tail && (tail == "" || (last && LastLine(tail)))
  }
}
