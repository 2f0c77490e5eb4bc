/**
 * The finished token list the analyzer consumes, and the run-time state of identifier
 * tokens. The lexer is not part of this model: token kinds compare by kind, identifier
 * tokens by name, and numeric constants carry their literal text and whether they are
 * floating-point.
 *
 * In the source every occurrence of a declared name is the same identifier object, whose
 * category, type and fields the declaration parser sets in place. Here that object is the
 * entry for its name in a SymbolTable; a name without an entry is an identifier whose
 * category has not been set.
 */
module Tokens {
  import opened Wrappers

  datatype Token =
    | StartProg | EndProg | NL | Tab | BlockVarDef | EndBlockVarDef
    | Class | Match | Case | Underscore | Colon | Point | Assignment
    | TrueLit | FalseLit | And | Or | Not
    | Plus | Minus | Mult | Div
    | Equal | NotEqual | Less | More | LessEqual | MoreEqual
    | Ident(name: string)
    | DigitalConst(literal: string, isFloat: bool)

  /**
   * `tokens[i - 1]` in Python: at `i == 0` a negative index reads the last token.
   */
  function Prev(ts: seq<Token>, i: nat): (t: Token)
    requires i < |ts|
    ensures i > 0 ==> t == ts[i - 1]
    ensures i == 0 ==> t == ts[|ts| - 1]
  {
    if i == 0 then ts[|ts| - 1] else ts[i - 1]
  }

  /** Names of the primitive types (the lexer's INT_TOKEN, FLOAT_TOKEN, BOOL_TOKEN). */
  const INT: string := "int"
  const FLOAT: string := "float"
  const BOOL: string := "bool"

  predicate IsPrimitive(typeName: string) {
    typeName == INT || typeName == FLOAT || typeName == BOOL
  }

  /** The inferred type of a numeric constant. */
  function ConstType(t: Token): (r: string)
    requires t.DigitalConst?
    ensures r == INT || r == FLOAT
  {
    if t.isFloat then FLOAT else INT
  }

  predicate IsRelational(t: Token) {
    t == Equal || t == NotEqual || t == Less || t == LessEqual || t == More || t == MoreEqual
  }

  /** The operator text a command shows for an operator token. */
  function OperatorName(t: Token): string {
    match t
    case Plus => "+"
    case Minus => "-"
    case Mult => "*"
    case Div => "/"
    case And => "and"
    case Or => "or"
    case Not => "not"
    case Equal => "=="
    case NotEqual => "!="
    case Less => "<"
    case LessEqual => "<="
    case More => ">"
    case MoreEqual => ">="
    case _ => ""
  }

  /** IdentifierToken.CATEGORY_TYPE and IdentifierToken.CATEGORY_VAR. */
  datatype Category = TypeCategory | VarCategory

  /**
   * The mutable part of an identifier token: its category, its type name and its fields
   * (each field is itself an identifier; `value` is the field's position).
   */
  datatype Identifier = Identifier(
    name: string,
    value: int,
    category: Option<Category>,
    typ: Option<string>,
    fields: seq<Identifier>)

  type SymbolTable = map<string, Identifier>

  /** The identifier object behind every occurrence of `name`. */
  function Lookup(table: SymbolTable, name: string): (id: Identifier)
    ensures name !in table ==> id.category == None && id.fields == []
  {
    if name in table then table[name] else Identifier(name, 0, None, None, [])
  }
}
