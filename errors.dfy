/**
 * The analyzer's error taxonomy (syntactical_analysis/custom_exceptions.py and the exception
 * names the analyzer imports), plus the two Python runtime errors the analyzer can run into:
 * an out-of-range list index and a `.type` read on a token that has no such attribute.
 * Every error aborts the pass, so each operation returns either a value or the first error.
 */
module Errors {
  datatype Error =
    | WrongToken
    | Analysis
    | IdentifierRedeclaration
    | FieldRedeclaration
    | TabExpected
    | NewLineExpected
    | TypeNameExpected
    | VarNameExpected
    | StartProgExpected
    | EndProgExpected
    | BlockVarDefExpected
    | EndBlockVarDefExpected
    | IdentifierExpected
    | CaseExpected
    | ColonExpected
    | AssignmentExpected
    | UnknownField
    | WrongExpression
    | TypeIncompatibility
    | RelationCount
    | UnknownVar
    | WrongTypeForOperator
      /** Python's IndexError: a read past the end of the token list. */
    | IndexOutOfRange
      /** Python's AttributeError: `.type` read on a token kind that carries no type. */
    | NoTypeAttribute

  /** A value, or the error that aborted the computation. */
  datatype Result<+T> = Ok(value: T) | Err(error: Error)

  /** Success without a value, or the error that aborted the computation. */
  datatype Outcome = Pass | Fail(error: Error)
}
