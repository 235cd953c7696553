/** The token alphabet the parser reads. The scanner itself is not part of this model. */
module Lexer {
  import opened Ast

  datatype Token =
    | KwPolicy | KwWhen | KwThen | KwAllow | KwReview | KwBlock | KwReason | KwEvidence
    | KwAnd | KwOr | KwNot | KwIn | KwTrue | KwFalse
    | LBrace | RBrace | LParen | RParen | Comma | Dot | Assign
    | EqEq | NotEq | LtEq | GtEq | Less | Greater
    | TStr(s: string)
    | TInt(n: i64)
    | TIdent(id: string)

  /** The token at position i is t. */
  predicate At(ts: seq<Token>, i: nat, t: Token) {
    i < |ts| && ts[i] == t
  }
}
