/** Text to tree: the lexer and the parser together. */
module FrontEnd {
  import opened Wrappers
  import opened Ast
  import opened Gaps
  import opened Lexing
  import opened Grammar
  import opened Printer
  import opened StmtRoundTrip
  import opened UnitRoundTrip

  /** For every statement whose tokens can be written down, lexing its source text, with any white space and comments
      between the tokens, and parsing the tokens gives the statement back and leaves nothing over. */
  lemma {:induction false} SourceRoundTrip(
    fp: FloatParser, render: F64 -> string, names: set<string>, s: Stmt, lead: seq<Piece>, items: seq<Item>, tail: string)
    requires StmtOk(names, s) && ItemToks(items) == PrintStmt(s)
    requires PiecesOk(lead) && ItemsOk(fp, render, items, tail)
    ensures var text := GapText(lead) + ItemsText(render, items, tail);
      Lex(fp, text, 0).Ok? && ParseStmt(names, Toks(Lex(fp, text, 0).value)) == Ok((s, []))
  {
    hide PrintStmt, PiecesOk, ItemsOk, Lex, GapText, ItemsText, ParseStmt, StmtOk;
    SourceRead(fp, render, lead, items, tail, 0);
    StmtTrip(names, s, []);
    assert PrintStmt(s) + [] == PrintStmt(s);
  }

  /** Whole files likewise: the declarations come back, with the names of their structs. */
  lemma {:induction false} FileRoundTrip(
    fp: FloatParser, render: F64 -> string, ds: seq<CTop>, lead: seq<Piece>, items: seq<Item>, tail: string)
    requires UnitOk({}, ds) && ItemToks(items) == PrintUnit(ds)
    requires PiecesOk(lead) && ItemsOk(fp, render, items, tail)
    ensures var text := GapText(lead) + ItemsText(render, items, tail);
      Lex(fp, text, 0).Ok? && ParseUnit({}, Toks(Lex(fp, text, 0).value)) == Ok((UnitOf(ds), StructNames(UnitOf(ds))))
  {
    hide PrintUnit, PiecesOk, ItemsOk, Lex, GapText, ItemsText, ParseUnit, UnitOk, UnitOf;
    SourceRead(fp, render, lead, items, tail, 0);
    UnitTrip({}, ds);
    assert {} + StructNames(UnitOf(ds)) == StructNames(UnitOf(ds));
  }
}
