/**
  The errors that abort a read. The source raises SyntaxError for text that
  does not have the expected shape and ValueError for a declaration that
  conflicts with an earlier one; here each raise site has its own constructor
  and `Kind` tells the two families apart.
 */
module Errors {

  datatype Kind = Syntax | Semantic

  /** The declaration kinds that may be given at most once per identifier. */
  datatype Decl = LinearizationDecl | SequenceDecl | ScoreDecl

  datatype Error =
    | NotIdentifier(text: string)
    | MissingArrow
    | NotSequenceToken(rest: string)
    | BadLiteral(text: string)
    | BadScore(text: string)
    | ExtraScoreInfo(text: string)
    | ArityMismatch(lhs: string, lhsArity: nat, fun: string, funArity: nat)
    | NonterminalClash(name: string)
    | FunctionClash(name: string)
    | SequenceClash(name: string)
    | Duplicate(decl: Decl, name: string)
  {
    function Kind(): (k: Kind)
      ensures k == Syntax <==> (NotIdentifier? || MissingArrow? || NotSequenceToken? || BadLiteral? || BadScore? || ExtraScoreInfo?)
    {
      match this
      case NotIdentifier(_) => Syntax
      case MissingArrow => Syntax
      case NotSequenceToken(_) => Syntax
      case BadLiteral(_) => Syntax
      case BadScore(_) => Syntax
      case ExtraScoreInfo(_) => Syntax
      case _ => Semantic
    }
  }
}
