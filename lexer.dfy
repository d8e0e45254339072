/** The token stream the parser consumes. The lexer itself is not part of this
    model: a token sequence is given, and the text a `${n:...}` placeholder
    holds arrives already tokenized inside its TabStopToken. */
module Lexer {

  /** A buffer position; the parser only carries it from a token to an object. */
  datatype Position = Position(line: int, col: int)

  datatype Token =
    | EscapeCharToken(start: Position, end: Position)
    | VisualToken(start: Position, end: Position)
    | ShellCodeToken(start: Position, end: Position)
    | PythonCodeToken(start: Position, end: Position)
    | VimLCodeToken(start: Position, end: Position)
      /** `${n:initial text}`: the initial text is its own token sequence */
    | TabStopToken(start: Position, end: Position, no: int, initialText: seq<Token>)
      /** a bare `$n`: either the defining tabstop or a mirror of it */
    | MirrorToken(start: Position, end: Position, no: int)
      /** `${n/search/replace/options}` */
    | TransformationToken(start: Position, end: Position, no: int)
    | EndOfTextToken(start: Position, end: Position)

  /** The token kinds with an entry in the TOKEN2TO table. */
  predicate IsLeaf(t: Token)
  {
    t.EscapeCharToken? || t.VisualToken? || t.ShellCodeToken? ||
    t.PythonCodeToken? || t.VimLCodeToken?
  }

  /** The token kinds that make an object during the flattening scan. */
  predicate Creates(t: Token)
  {
    IsLeaf(t) || t.TabStopToken?
  }

  /** The lexer's promise about every sequence it returns: it ends with the
      EndOfText sentinel. */
  predicate EndsWithEndOfText(ts: seq<Token>)
  {
    |ts| > 0 && ts[|ts| - 1].EndOfTextToken?
  }
}
