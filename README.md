# Syntactical analysis of the TYAP teaching language, in Dafny

This project models the syntactical analyzer of the TYAP compiler front-end, the package
`syntactical_analysis`. The analyzer reads the token list the lexer produced and checks that it is a
program of the form

    start_prog
    block_var_def
      <type> <name>                 variable declarations
      class <Name>:                 class declarations, one tab-indented field per line
          <type> <field>
    endblock_var_def
      <name> = <expression>         expression statements
      match <path>:                 match statements
          case <const or _>:
              <expression>
    end_prog

While it reads the declarations it fills in the category, type and fields of every identifier.
Every expression statement goes to the expression analyzer. That analyzer does three things:
- it folds dotted paths `a.b.c` into one operand;
- it checks the assignment's shape and the types involved;
- it expands every `not x` into three instructions of three-address code.

The instructions (assignments, conditional jumps, gotos) are appended to one shared buffer. The
first error aborts the pass.

The modules follow the source files:

| module | file | form |
|---|---|---|
| `Analyzer` | analyzer.py | class `SyntacticalAnalyzer` with its `tokens` and `symbols` fields; a method per phase, each proved against a specification function |
| `Declarations` | `_var_definition` and `_add_identifier_category` of analyzer.py | one token's step as a function, plus the scan |
| `Statements` | the statement loop and the match/case parser of `analyze` | functions over the token list |
| `ExpressionAnalysis` | expression_analyzer.py | class `ExpressionAnalyzer`; its `while NOT in tokens` loop is a method with invariants |
| `Folding` | the `parse_identifiers` loop | the loop's meaning as a function, with a round-trip proof |
| `Utils` | utils.py | the `parse_identifiers` loop as a method |
| `Handlers` | handlers.py | the code the `not` and `and` handlers emit, and what that code computes |
| `Commands` | commands.py | the instruction records, their text form and the append-only buffer class |
| `CommandFabric` | command.py | the four-part command record and its factory |
| `Tokens` | token kinds, identifier state | data model |
| `Operands` | the expression analyzer's operands | data model |
| `Errors` | the exception taxonomy | data model |
| `Text` | Python's `str()` of a natural number | helper |
| `Wrappers` | `Option` | helper |

Identifier tokens in the source are shared objects that the declaration parser updates in place.
They are modelled as a `SymbolTable` from names to identifier records. A name without an entry is
an identifier whose category has not been set. Python exceptions, including the `IndexError` of a
read past the end of the list, are the `Error` values of a `Result` or `Outcome`. The model assumes
that a `.type` read on a token that is not an identifier or a numeric constant raises
`AttributeError`, modelled as `NoTypeAttribute`. The token module that would settle this is not
part of this model (see "Left out").

The temporary-variable allocator (temp_var.py) is not part of this model. Instead every operation
that creates a temporary takes a function `alloc` from the buffer length to the temporary's name.

The statement loop calls the expression analyzer and the match parser. The methods of
`SyntacticalAnalyzer` below `Analyze` take those two as ghost parameters `analyze`/`analyzers` and
`parse`, together with the requirement that they agree with `ExpressionSpec` and `MatchAt`. This
keeps each proof small. `Analyze` itself passes the program's own pair (`ProgramParsers`), so its
contract is stated against the concrete function `Program`.

Behaviour of the code that the model keeps as written:
- **`not` jump target.** The conditional jump of the `not` pattern targets `l + 3`, the position
  just past the pattern. Its index is computed after the first instruction is already in the
  buffer.
- **Case at end of input.** An expression in a case that runs to the end of the token list makes
  the case loop read past the end, which gives `IndexOutOfRange`.
- **Statement after a match.** The line break that ends the last case's expression is stepped
  over. So the token after it is examined by the case loop, and a statement that directly
  follows a match is rejected unless an empty line separates them.
- **Dot checks in `parse_identifiers`.** The check `ind == len(tokens)` can never hold, so a
  trailing dot is an `IndexOutOfRange`. The test `(prev_token, IdentifierToken)` is a tuple and
  always true, so only the token after a dot is checked.
- **Index 0.** A read of the previous token at index 0 is Python's `tokens[-1]`, the last token
  (`Tokens.Prev`).

## Model

| member | source | states |
|---|---|---|
| Analyzer.SyntacticalAnalyzer.constructor | syntactical_analysis/analyzer.py:28-29 | the analyzer starts with the given token list and identifier state |
| Analyzer.SyntacticalAnalyzer.CleanNlTokens | syntactical_analysis/analyzer.py:52-55 | the token list loses exactly its leading line breaks (the meaning of `DropLeadingNL` is proved in `DropLeadingNLMeaning`); identifiers are untouched |
| Analyzer.DropLeadingNL | syntactical_analysis/analyzer.py:52-55 | the cleaned list does not start with a line break |
| Analyzer.DropLeadingNLMeaning | syntactical_analysis/analyzer.py:52-55 | the cleaned list is a suffix of the input and everything removed was a line break |
| Analyzer.DropLeadingNLAt | syntactical_analysis/analyzer.py:54-55 | past a run of line breaks the cleaned list starts at the first other token |
| Analyzer.DropLeadingNLKeeps | syntactical_analysis/analyzer.py:70-79 | cleaning keeps every token other than a line break, so the `endblock_var_def not in tokens` test after cleaning sees the same answer |
| Analyzer.DropLeadingNLIdempotent | syntactical_analysis/analyzer.py:52-55 | cleaning twice is cleaning once |
| Analyzer.SyntacticalAnalyzer.AddIdentifierCategory | syntactical_analysis/analyzer.py:36-50 | the identifier state changes exactly as `Declarations.AddIdentifierCategory` says, and not at all on a redeclaration |
| Declarations.AddIdentifierCategory | syntactical_analysis/analyzer.py:36-50 | fails with IdentifierRedeclaration if and only if the identifier already has a category. Otherwise it sets the category, sets the type when a type token is given, copies the fields of the class type of a variable, and leaves every other identifier unchanged |
| Declarations.AddField | syntactical_analysis/analyzer.py:394-408 | a field is appended to the class with the next ordinal, category var and the given type; nothing else changes |
| Analyzer.SyntacticalAnalyzer.OutsideToken | syntactical_analysis/analyzer.py:296-347 | one token outside a class declaration: the step and the new identifier state are those of `OutsideStep` |
| Analyzer.SyntacticalAnalyzer.InClassToken | syntactical_analysis/analyzer.py:348-413 | one token inside a class declaration: the step and the new identifier state are those of `InClassStep` |
| Declarations.OutsideStep | syntactical_analysis/analyzer.py:296-347 | outside a class, a class body opens only at `class Name`, which declares `Name` a type. The identifier state changes only by declaring a name that had no category, and outside a class that is a variable declared right after a type name |
| Declarations.InClassStep | syntactical_analysis/analyzer.py:348-413 | inside a class, the body is left only at a line break not followed by a tab, with the identifier state unchanged. The state changes only by appending, after an identifier, a field whose name the class does not have yet |
| Declarations.StepAt | syntactical_analysis/analyzer.py:295-413 | an `endblock_var_def` outside a class ends the scan at its own index when a line break precedes it, and fails with AnalysisException otherwise. Inside a class it fails with AnalysisException. The scan stops nowhere else |
| Declarations.VarDefFrom | syntactical_analysis/analyzer.py:295-413 | no contract of its own: the scan from a position. Where it stops and the identifier state it leaves are stated by `VarDefFromStopsAtFirstEnd`, `VarDefFromEnds`, `VarDefFromKeepsWellFormed` and `VarDefFromKeepsCategories` |
| Declarations.VarDefinitionSpec | syntactical_analysis/analyzer.py:287-413 | no contract of its own: `_var_definition`, the scan from the first token outside a class. `VarDefinitionEnds` and the `VarDefFrom` lemmas state what it returns |
| Analyzer.SyntacticalAnalyzer.VarDefinition | syntactical_analysis/analyzer.py:287-413 | the loop returns the error or the end index of `VarDefinitionSpec` and leaves its identifier state |
| Declarations.VarDefFromStopsAtFirstEnd | syntactical_analysis/analyzer.py:311-318 | a successful scan ends at the first `endblock_var_def` of the rest, which follows a line break; a scan that runs off the end saw none |
| Declarations.VarDefFromEnds | syntactical_analysis/analyzer.py:287-413 | if an `endblock_var_def` is ahead, a successful scan returns an index and never `None` |
| Declarations.VarDefinitionEnds | syntactical_analysis/analyzer.py:78-86 | once the frame has found `endblock_var_def`, a successful `_var_definition` returns an index inside the list, so the slice at line 86 is defined |
| Declarations.AddIdentifierCategoryKeepsWellFormed | syntactical_analysis/analyzer.py:36-50 | declaring an identifier keeps every class's fields uniquely named and numbered 0, 1, ... |
| Declarations.AddFieldKeepsWellFormed | syntactical_analysis/analyzer.py:394-408 | adding a field whose name is new keeps field names unique and ordinals consecutive |
| Declarations.StepKeepsWellFormed | syntactical_analysis/analyzer.py:295-413 | one declaration step keeps the identifier state well formed |
| Declarations.VarDefFromKeepsWellFormed | syntactical_analysis/analyzer.py:287-413 | the whole declaration scan keeps the identifier state well formed |
| Declarations.StepKeepsCategories | syntactical_analysis/analyzer.py:295-413 | a declaration step never changes or clears a category that is already set |
| Declarations.VarDefFromKeepsCategories | syntactical_analysis/analyzer.py:287-413 | the whole scan never changes or clears a category that is already set |
| Analyzer.FrameSpec | syntactical_analysis/analyzer.py:58-84 | an accepted frame yields a declaration part that contains `endblock_var_def` |
| Analyzer.DeclarationTokens | syntactical_analysis/analyzer.py:82-84 | removing `block_var_def`, cleaning and re-inserting one line break keeps a later `endblock_var_def` |
| Analyzer.FrameSpecMeaning | syntactical_analysis/analyzer.py:58-84 | the frame is accepted if and only if the list starts with `start_prog`, ends with `end_prog`, has `block_var_def` after nothing but line breaks and `endblock_var_def` later. The declaration part is the tokens after `block_var_def`, cleaned, behind one line break |
| Analyzer.FrameAtAccepted | syntactical_analysis/analyzer.py:58-84 | a list of that shape passes the frame checks with that declaration part |
| Analyzer.AcceptedFrameAt | syntactical_analysis/analyzer.py:58-79 | a list that passes the frame checks has that shape, and the lemma names the position of `block_var_def` |
| Analyzer.SyntacticalAnalyzer.CheckFrame | syntactical_analysis/analyzer.py:58-84 | the method fails with the frame's first error, or leaves exactly the declaration part of `FrameSpec` in `tokens` |
| Analyzer.DeclarationPartSpec | syntactical_analysis/analyzer.py:82-94 | no contract of its own: `_var_definition`, then the tokens after `endblock_var_def` without leading line breaks. `VarDefinitionEnds` shows the slice at line 86 is defined |
| Analyzer.SyntacticalAnalyzer.DeclarationPart | syntactical_analysis/analyzer.py:85-94 | the method fails with the declaration error, or leaves the declared identifier state and the cleaned tokens after `endblock_var_def` |
| Statements.IsExpressionToken | syntactical_analysis/analyzer.py:126-138 | no contract of its own: the whitelist of an expression line (identifiers, numeric constants, the thirteen operators, `True`, `False`, `=` and `.`). `CollectFromRejects` states where it decides the outcome |
| Statements.Collect | syntactical_analysis/analyzer.py:110-145 | no contract of its own: the collection loop started past the line's first token. `CollectFrom` states where it ends and its only error, and `CollectFromRejects` when it fails |
| Statements.CollectFrom | syntactical_analysis/analyzer.py:111-145 | collection stops at a line break or the end, every token it passes is on the whitelist, and the only error is WrongToken |
| Statements.CollectFromRejects | syntactical_analysis/analyzer.py:111-145 | collection fails if and only if a token off the whitelist appears before the next line break |
| Analyzer.SyntacticalAnalyzer.CollectExpression | syntactical_analysis/analyzer.py:107-145 | the loop ends where `Collect` says, and the collected expression is exactly the tokens from the identifier up to that point |
| Statements.TargetFrom | syntactical_analysis/analyzer.py:155-187 | the search for the end of a match header stops at a line break that follows a colon |
| Statements.TargetFromKeepsPath | syntactical_analysis/analyzer.py:156-187 | no line break is passed, and the target is exactly the identifier and dot tokens of the header |
| Statements.TargetFromNeighbours | syntactical_analysis/analyzer.py:171-187 | every identifier of an accepted header follows `match` or a dot and precedes a colon or a dot; every dot sits between identifiers |
| Statements.TargetNeverEmpty | syntactical_analysis/analyzer.py:151-190 | when `match` is followed by an identifier, an accepted target is never empty, so the check at line 189 cannot fire |
| Analyzer.SyntacticalAnalyzer.ParseTarget | syntactical_analysis/analyzer.py:150-190 | the target loop returns what `TargetFrom` does |
| Statements.CaseStepAt | syntactical_analysis/analyzer.py:195-281 | one case-loop step moves forward; the loop ends only at the end of the list or at a line break not followed by a tab; a numeric constant stays numeric |
| Statements.CaseStepAtChecks | syntactical_analysis/analyzer.py:260-275 | after `case` a token other than a constant or `_` is a wrong token; a constant or `_` not after `case` raises case-expected and one not followed by `:` raises colon-expected; a constant becomes the pending value and `_` keeps it; a case is completed only at a second tab |
| Statements.CaseStepCompletesWellFormed | syntactical_analysis/analyzer.py:205-270 | a completed case carries a numeric constant or none, and a non-empty expression that starts with an identifier and holds only whitelisted tokens |
| Statements.CasesFromWellFormed | syntactical_analysis/analyzer.py:193-281 | every case the loop collects is well formed |
| Statements.CasesFrom | syntactical_analysis/analyzer.py:193-281 | no contract of its own: the case loop. `CasesFromWellFormed` and `CasesFromEnds` state what it returns |
| Statements.CasesFromEnds | syntactical_analysis/analyzer.py:276-279 | the case loop ends at the end of the list or at a line break without a tab after it |
| Analyzer.SyntacticalAnalyzer.CaseStep | syntactical_analysis/analyzer.py:195-281 | one pass of the case loop returns what `CaseStepAt` does |
| Analyzer.SyntacticalAnalyzer.ParseCases | syntactical_analysis/analyzer.py:193-281 | the case loop returns what `CasesFrom` does |
| Analyzer.SyntacticalAnalyzer.ParseMatch | syntactical_analysis/analyzer.py:149-281 | a match statement parses to what `MatchAt` does |
| Statements.MatchAt | syntactical_analysis/analyzer.py:149-281 | no contract of its own: a match statement, which needs an identifier after `match`, then a target line and its cases. `MatchAtMeaning` and `MatchAtIsSound` state what it returns |
| Statements.MatchAtMeaning | syntactical_analysis/analyzer.py:149-281 | a parsed match advances, ends at a line break or the end of the list, and is well formed (non-empty target, well-formed cases) |
| Statements.MatchAtIsSound | syntactical_analysis/analyzer.py:149-281 | the match parser always advances and only yields well-formed matches |
| Statements.StatementAt | syntactical_analysis/analyzer.py:103-284 | a statement step advances. An expression step starts at an identifier, ends where the line's collection ends and emits the expression analyzer's code for exactly that line |
| Statements.StatementAtParsesWellFormed | syntactical_analysis/analyzer.py:149-282 | a match the loop parses is well formed |
| Statements.StatementKeepsJumpsBounded | syntactical_analysis/analyzer.py:103-148 | one statement appends no jump that points past the end of the buffer |
| Statements.StatementsKeepJumpsBounded | syntactical_analysis/analyzer.py:96-284 | the whole statement loop keeps every jump target at most the buffer length |
| Statements.StatementsParseWellFormedMatches | syntactical_analysis/analyzer.py:96-284 | every match the statement loop collects is well formed |
| Statements.StatementsFrom | syntactical_analysis/analyzer.py:96-284 | no contract of its own: the statement loop. `StatementsFromNext`, `StatementsFromHalt`, `StatementsFromSteps`, `StatementsKeepJumpsBounded` and `StatementsParseWellFormedMatches` state what it returns |
| Statements.StatementsFromNext | syntactical_analysis/analyzer.py:96-284 | after a statement that succeeds, the loop goes on from where that statement ended, with its code appended and its match collected |
| Statements.StatementsFromHalt | syntactical_analysis/analyzer.py:96-284 | a statement that fails ends the loop with its error and the code appended before it |
| Statements.StatementsFromSteps | syntactical_analysis/analyzer.py:96-101 | the statement loop is the repetition of its step until the end of the list |
| Statements.ExpressionAnalyzerKeepsJumpsBounded | syntactical_analysis/analyzer.py:148 | the expression analyzer of any identifier state keeps every jump target at most the buffer length |
| Analyzer.SyntacticalAnalyzer.ExpressionStatement | syntactical_analysis/analyzer.py:107-148 | collecting a line and running `ExpressionAnalyzer` on it is the expression step of `StatementAt`, and exactly its code is appended |
| Analyzer.SyntacticalAnalyzer.Statement | syntactical_analysis/analyzer.py:103-284 | one pass of the statement loop is `StatementAt`, and exactly its code is appended |
| Analyzer.SyntacticalAnalyzer.Statements | syntactical_analysis/analyzer.py:96-284 | the statement loop's outcome, collected matches and appended code are those of `StatementsFrom` |
| Analyzer.BlockSpec | syntactical_analysis/analyzer.py:85-284 | no contract of its own: the declarations, then the statement loop over what follows them. `AnalyzeBlock` is proved against it |
| Analyzer.ProgramSpec | syntactical_analysis/analyzer.py:57-284 | no contract of its own: `analyze` for a given expression analyzer and match parser. `ProgramOutcome`, `ProgramKeepsTable`, `ProgramKeepsJumpsBounded` and `ProgramParsesWellFormedMatches` state what it returns |
| Analyzer.Program | syntactical_analysis/analyzer.py:57-284 | no contract of its own: `ProgramSpec` with the program's own expression analyzer and match parser. `AnalysisIsSound` states what it returns |
| Analyzer.SyntacticalAnalyzer.AnalyzeBlock | syntactical_analysis/analyzer.py:74-284 | the declarations and then the statement loop, as `BlockSpec` states |
| Analyzer.SyntacticalAnalyzer.AnalyzeWith | syntactical_analysis/analyzer.py:57-284 | the whole of `analyze` for an expression analyzer and match parser that agree with the program's, as `ProgramSpec` states |
| Analyzer.SyntacticalAnalyzer.Analyze | syntactical_analysis/analyzer.py:57-284 | outcome, appended code, parsed matches and, on success, the final tokens and identifier state are those of `Program` |
| Analyzer.ProgramParsers | syntactical_analysis/analyzer.py:148-149 | the program's own expression analyzer and match parser meet the requirements of `AnalyzeWith` |
| Analyzer.ProgramOutcome | syntactical_analysis/analyzer.py:58-86 | a frame error or a declaration error is the outcome of the analysis, with no code; a successful analysis had a frame of the required shape |
| Analyzer.ProgramKeepsTable | syntactical_analysis/analyzer.py:82-86 | the analysis never changes a category that was set, and keeps a well-formed identifier state well formed |
| Analyzer.ProgramKeepsJumpsBounded | syntactical_analysis/analyzer.py:57-284 | for any expression analyzers that keep every jump target at most the buffer length, the analysis does too |
| Analyzer.ProgramParsesWellFormedMatches | syntactical_analysis/analyzer.py:57-284 | every match the analysis collects is well formed |
| Analyzer.AnalysisIsSound | syntactical_analysis/analyzer.py:57-284 | after the analysis every jump target of the buffer is at most its length, and every collected match is well formed |
| ExpressionAnalysis.ExpressionAnalyzer.constructor | syntactical_analysis/expression_analyzer.py:22-23 | the analyzer holds the given tokens |
| ExpressionAnalysis.ExpressionAnalyzer.Run | syntactical_analysis/expression_analyzer.py:22-25 | constructing an analyzer folds the paths and analyzes, with the outcome and code of `ExpressionSpec` |
| ExpressionAnalysis.ExpressionAnalyzer.ParseIdentifiers | syntactical_analysis/expression_analyzer.py:27-81 | the method's copy of the folding loop fails as `FoldPaths` fails, or replaces the tokens by the folded list |
| ExpressionAnalysis.ExpressionAnalyzer.Analyze | syntactical_analysis/expression_analyzer.py:83-94 | outcome and code are those of `AnalyzeSpec`; the list is narrowed to the part from `=` on |
| ExpressionAnalysis.ExpressionAnalyzer.AnalyzeRightPart | syntactical_analysis/expression_analyzer.py:96-143 | outcome and code are those of `RightPartSpec` |
| ExpressionAnalysis.ExpressionAnalyzer.ReduceNots | syntactical_analysis/expression_analyzer.py:131-143 | the `while NOT in tokens` loop yields the outcome and code of `NotReduce` |
| ExpressionAnalysis.ExpressionAnalyzer.ReduceFirstNot | syntactical_analysis/expression_analyzer.py:132-143 | one pass of the loop fails as `NotStep` does, or emits its three instructions and shortens the list |
| ExpressionAnalysis.TypeOf | syntactical_analysis/expression_analyzer.py:133-135 | a resolved path or a temporary has its type; only those can be `bool` |
| ExpressionAnalysis.RelationKinds | syntactical_analysis/expression_analyzer.py:103-110 | at most six kinds of comparison are counted |
| ExpressionAnalysis.RelationKindsPositive | syntactical_analysis/expression_analyzer.py:103-110 | the count is non-zero if and only if some comparison occurs |
| ExpressionAnalysis.RelationKindsAboveOne | syntactical_analysis/expression_analyzer.py:126-129 | the count exceeds one if and only if two different comparison kinds occur |
| ExpressionAnalysis.RelationKindsIgnoreRepeats | syntactical_analysis/expression_analyzer.py:103-110 | repeating a comparison already present does not change the count |
| ExpressionAnalysis.HasBoolOnlyIff | syntactical_analysis/expression_analyzer.py:101-122 | the list holds a comparison, a logical operator, `True` or `False` if and only if the test of line 122 fires |
| ExpressionAnalysis.GateCheck | syntactical_analysis/expression_analyzer.py:101-129 | the two checks pass or fail with TypeIncompatibility or RelationCount |
| ExpressionAnalysis.GateCheckMeaning | syntactical_analysis/expression_analyzer.py:101-129 | TypeIncompatibility exactly when the target is not `bool` and a boolean-only token occurs. Otherwise RelationCount exactly when two comparison kinds occur. Otherwise pass |
| ExpressionAnalysis.NotStep | syntactical_analysis/expression_analyzer.py:132-143 | a successful step removes one element and emits three instructions |
| ExpressionAnalysis.NotStepDropsOneNot | syntactical_analysis/expression_analyzer.py:139-143 | a successful step removes exactly one `not` |
| ExpressionAnalysis.NotStepEmitsPattern | syntactical_analysis/expression_analyzer.py:132-143 | a successful step found a `bool` path or temporary right after the first `not`. It emits the NOT pattern that tests that operand's name into the temporary `alloc(l)`, and the new list is the old one with the `not` and its operand replaced by that temporary |
| ExpressionAnalysis.NotStepRejectsNonBool | syntactical_analysis/expression_analyzer.py:133-135 | an operand after the first `not` whose type is not `bool` stops the loop with WrongTypeForOperator |
| ExpressionAnalysis.NotStepRejectsTrailingNot | syntactical_analysis/expression_analyzer.py:132-133 | a `not` at the end of the list reads past it: IndexOutOfRange |
| ExpressionAnalysis.Replace | syntactical_analysis/expression_analyzer.py:139-143 | no contract of its own: both branches of line 139 give the same list. `ReplaceDropsOneNot` states what it returns |
| ExpressionAnalysis.ReplaceDropsOneNot | syntactical_analysis/expression_analyzer.py:139-143 | replacing `not x` by its temporary removes one `not` and one element |
| ExpressionAnalysis.NotReduce | syntactical_analysis/expression_analyzer.py:131-143 | no contract of its own: the `while NOT in tokens` loop. `NotReduceSteps`, `NotReduceDone`, `NotReduceStops` and `NotReduceMeaning` state what it returns |
| ExpressionAnalysis.NotReduceSteps | syntactical_analysis/expression_analyzer.py:131-143 | after a pass that succeeds, the loop goes on with the list and code that pass leaves, at the buffer length three further on |
| ExpressionAnalysis.NotReduceDone | syntactical_analysis/expression_analyzer.py:131 | with no `not` left the loop passes and changes nothing |
| ExpressionAnalysis.NotReduceStops | syntactical_analysis/expression_analyzer.py:131-135 | a pass that fails ends the loop with its error and the code emitted before it |
| ExpressionAnalysis.NotReduceMeaning | syntactical_analysis/expression_analyzer.py:131-143 | the loop only appends NOT patterns. If it passes, no `not` is left, the list lost one element per `not`, and the code has three instructions per `not` |
| ExpressionAnalysis.NotBlocksKeepJumpsBounded | syntactical_analysis/expression_analyzer.py:131-143 | code made of NOT patterns keeps every jump target at most the buffer length |
| ExpressionAnalysis.RightPartSpec | syntactical_analysis/expression_analyzer.py:96-143 | no contract of its own: the two checks, then the NOT loop, on the list from `=` on. `GateCheckMeaning` and `NotReduceMeaning` state what it returns |
| ExpressionAnalysis.AssignmentShape | syntactical_analysis/expression_analyzer.py:84-89 | no contract of its own: exactly one `=`, not in last place. `RightPartStartsAtAssignment` and `AnalyzeMeaning` state its consequences |
| ExpressionAnalysis.AnalyzeSpec | syntactical_analysis/expression_analyzer.py:83-94 | no contract of its own: the shape checks, then the right part with the target's type. `AnalyzeMeaning` and `AnalyzeKeepsJumpsBounded` state what it returns |
| ExpressionAnalysis.ExpressionSpec | syntactical_analysis/expression_analyzer.py:22-25 | no contract of its own: fold the paths, then analyze. `FoldPathsMeaning`, `AnalyzeMeaning` and `ExpressionKeepsJumpsBounded` state what it returns |
| ExpressionAnalysis.RightPartStartsAtAssignment | syntactical_analysis/expression_analyzer.py:91-99 | after the shape checks the narrowed list starts with its only `=`, so the right part's own slice at line 99 is the whole list |
| ExpressionAnalysis.AnalyzeMeaning | syntactical_analysis/expression_analyzer.py:83-143 | code is only emitted after the shape and gate checks pass. A passing analysis had exactly one `=`, not at the end; a `bool` target wherever boolean-only tokens occur; at most one comparison kind; no `not` left; three instructions per `not` |
| ExpressionAnalysis.AnalyzeKeepsJumpsBounded | syntactical_analysis/expression_analyzer.py:83-143 | the analysis keeps every jump target at most the buffer length |
| ExpressionAnalysis.ExpressionKeepsJumpsBounded | syntactical_analysis/expression_analyzer.py:22-25 | analyzing an expression line keeps every jump target at most the buffer length |
| Utils.ParseIdentifiers | syntactical_analysis/utils.py:7-60 | the loop computes `FoldPaths` |
| Folding.FieldNamed | syntactical_analysis/utils.py:27-33 | a field is found by name, or no field has that name |
| Folding.ScanFields | syntactical_analysis/utils.py:26-31 | the field loop finds a field with the name if and only if one exists, and with unique names the path is extended by that name |
| Folding.ExtendStep | syntactical_analysis/utils.py:22-33 | an identifier that extends a path follows a dot and names a field of the current identifier |
| Folding.FoldStep | syntactical_analysis/utils.py:11-56 | no contract of its own: one pass of the loop. `FoldFromRejectsBadHead`, `FoldFromRejectsUnknownField` and `FoldFromRejectsAdjacentNames` state its errors; `ExtendStep` and `StepKeepsInv` its successes |
| Folding.FoldFrom | syntactical_analysis/utils.py:11-60 | no contract of its own: the loop from a position. `FoldFromMeaning` and the rejection lemmas state what it returns |
| Folding.FoldPaths | syntactical_analysis/utils.py:7-60 | no contract of its own: `parse_identifiers`. `FoldPathsFolded`, `FoldPathsKeepsPathFree`, `FoldPathsMeaning`, `FoldRejectsBadHead`, `LeadingPointIsDropped` and `UndeclaredRightSideFails` state what it returns |
| Folding.StepKeepsInv | syntactical_analysis/utils.py:11-56 | each pass of the loop keeps the fold's invariant: the folded prefix expands back to the tokens read so far, and each folded path names the identifier it resolves to |
| Folding.FoldFromMeaning | syntactical_analysis/utils.py:11-60 | from any point that satisfies the invariant, a successful fold expands back to its input and resolves every path |
| Folding.FinishMeaning | syntactical_analysis/utils.py:57-60 | after the last token, flushing the pending path gives a list that expands back to the whole input and resolves every path |
| Folding.FoldPathsMeaning | syntactical_analysis/utils.py:7-60 | for an input whose identifier names hold no dot and whose every dot follows an identifier, and a table whose classes have unique field names: a successful fold loses nothing (expanding each folded path into identifier and dot tokens gives the input again), no bare identifier or dot token is left, and every path resolves in the identifier state to the type it carries |
| Folding.FoldPathsFolded | syntactical_analysis/utils.py:7-60 | on every input, a successful fold leaves no bare identifier or dot token and no temporary variable |
| Folding.FoldFromFolded | syntactical_analysis/utils.py:11-58 | from any state that holds only folded tokens and no temporary, a successful rest of the loop keeps it so, and so does the final flush |
| Folding.FoldPathsKeepsPathFree | syntactical_analysis/utils.py:49-60 | a list with no identifier and no dot comes back unchanged, token by token, whatever the identifier table |
| Folding.FoldFromPathFree | syntactical_analysis/utils.py:11-58 | on such a list, the loop from any position appends the remaining tokens to the ones already copied |
| Folding.FoldFromRejectsBadHead | syntactical_analysis/utils.py:15-19 | wherever the loop meets an identifier with no path pending, a name without a category fails with UnknownVar and a type name with VarNameExpected |
| Folding.FoldRejectsBadHead | syntactical_analysis/utils.py:15-19 | in particular for the first token |
| Folding.FoldFromRejectsUnknownField | syntactical_analysis/utils.py:22-33 | a name after a dot that is not a field of the identifier the path has reached fails with UnknownField |
| Folding.FoldFromRejectsAdjacentNames | syntactical_analysis/utils.py:22-35 | an identifier that follows a path without a dot between them fails with AnalysisException |
| Folding.UndeclaredRightSideFails | syntactical_analysis/utils.py:11-19 | `x = y` with `x` a declared variable and `y` undeclared fails with UnknownVar |
| Folding.LeadingPointIsDropped | syntactical_analysis/utils.py:36-47 | a dot at the start of the list is accepted and dropped, since only the token after a dot is checked |
| Handlers.NotPattern | syntactical_analysis/handlers.py:16-19 | the `not` pattern has three instructions |
| Handlers.HandleNot | syntactical_analysis/handlers.py:10-19 | the `bool` temporary named by the allocator from the buffer length is returned, and exactly the `not` pattern is appended |
| Handlers.NotPatternCopiesOperand | syntactical_analysis/handlers.py:16-19 | run, the pattern sets the temporary to the operand's value (its jump skips the `False` assignment) and changes no other variable |
| Handlers.NotPatternKeepsJumpsBounded | syntactical_analysis/handlers.py:16-19 | the `not` pattern appends no jump past the end of the buffer |
| Handlers.AndPattern | syntactical_analysis/handlers.py:30-38 | the `and` pattern has six instructions |
| Handlers.HandleAnd | syntactical_analysis/handlers.py:24-38 | the `bool` temporary named by the allocator from the buffer length is returned, and exactly the `and` pattern is appended |
| Handlers.AndPatternComputesConjunction | syntactical_analysis/handlers.py:30-38 | run, the pattern sets the temporary to the conjunction of the operands and changes no other variable |
| Handlers.AndPatternKeepsJumpsBounded | syntactical_analysis/handlers.py:30-38 | the `and` pattern appends no jump past the end of the buffer |
| Commands.CommandBuffer.constructor | syntactical_analysis/commands.py:42 | the buffer starts empty |
| Commands.CommandBuffer.CreateAssign | syntactical_analysis/commands.py:6-9 | exactly one assignment is appended |
| Commands.CommandBuffer.CreateCondition | syntactical_analysis/commands.py:20-23 | exactly one conditional jump is appended |
| Commands.CommandBuffer.CreateGoto | syntactical_analysis/commands.py:33-36 | exactly one goto is appended |
| Commands.Render | syntactical_analysis/commands.py:11-39 | no contract of its own: the `__str__` of the three instruction records. `RenderRoundTrip` proves that `ParseInstruction` reads it back |
| Commands.ParseInstruction | syntactical_analysis/commands.py:11-39 | no contract of its own: the source has no such function. It reads a listing line back, and `RenderRoundTrip` proves it the inverse of `Render` |
| Commands.JumpText | syntactical_analysis/commands.py:25-26 | a jump index prints as a non-empty word without spaces |
| Commands.GotoRoundTrip | syntactical_analysis/commands.py:38-39 | the text of a goto reads back as that goto |
| Commands.ConditionRoundTrip | syntactical_analysis/commands.py:25-26 | the text of a conditional jump reads back as that jump, whatever its condition |
| Commands.AssignRoundTrip | syntactical_analysis/commands.py:11-12 | the text of an assignment to a plain target reads back as that assignment |
| Commands.RenderRoundTrip | syntactical_analysis/commands.py:11-39 | every instruction's text reads back as that instruction, so the text form is unambiguous |
| CommandFabric.CommandTable.constructor | syntactical_analysis/command.py:92 | the factory's list starts empty |
| CommandFabric.CommandTable.NextCommandName | syntactical_analysis/command.py:39-40 | the next name is `$` and the list length, different from every name already in the list |
| CommandFabric.IndexNameInjective | syntactical_analysis/command.py:39-40 | different positions give different names |
| CommandFabric.CreateForAssignment | syntactical_analysis/command.py:43-51 | an assignment command has the target as name, the source as left operand, and nothing else |
| CommandFabric.AssignmentTextAgrees | syntactical_analysis/command.py:24-51 | an assignment command prints like the assignment record of commands.py |
| CommandFabric.ToString | syntactical_analysis/command.py:24-32 | no contract of its own: `Command.__str__`. `TwoOperandText`, `OneOperandText` and `AssignmentTextAgrees` state the text it gives |
| CommandFabric.PartIf | syntactical_analysis/command.py:26-31 | a part is printed if and only if it is truthy (present and non-empty) |
| CommandFabric.TwoOperandText | syntactical_analysis/command.py:24-32 | a two-operand command prints as `name = left op right` |
| CommandFabric.OneOperandText | syntactical_analysis/command.py:24-32 | a one-operand command prints as `name = op operand` |
| CommandFabric.CommandTable.CreateOneOperandCommand | syntactical_analysis/command.py:54-64 | an operator other than `not` fails with nothing appended; `not` appends and returns a `bool` command named after its position |
| CommandFabric.TwoOperandsReturnType | syntactical_analysis/command.py:76-80 | a comparison yields `bool`, any other operator the assumed type |
| CommandFabric.CommandTable.CreateTwoOperandsCommand | syntactical_analysis/command.py:67-89 | the command named after its position, with its operands and result type, is appended and returned |
| Tokens.Prev | syntactical_analysis/analyzer.py:304 | the previous token, and at index 0 Python's `tokens[-1]` |
| Tokens.Lookup | syntactical_analysis/analyzer.py:38 | a name that has not been declared has no category and no fields |
| Tokens.ConstType | syntactical_analysis/expression_analyzer.py:133-135 | the `.type` of a numeric constant, as `TypeOf` reads it, is `int` or `float`, never `bool` |
| Tokens.IsPrimitive | syntactical_analysis/analyzer.py:46 | no contract of its own: the primitive type names `int`, `float` and `bool`. `Declarations.AddIdentifierCategory` copies class fields exactly for a variable whose type is not one of them |
| Tokens.OperatorName | syntactical_analysis/command.py:62 | no contract of its own: the text of an operator as `operator.name` gives it. `CommandFabric.TwoOperandText` and `OneOperandText` state the command text it appears in |
| Operands.Count | syntactical_analysis/expression_analyzer.py:84 | `list.count` is zero if and only if the element is absent, and at most the length |
| Operands.IndexOf | syntactical_analysis/expression_analyzer.py:91 | `list.index` finds the first occurrence |
| Text.NatToStringRoundTrip | syntactical_analysis/commands.py:26 | the decimal text of a jump index reads back as that index |
| Text.NatToStringInjective | syntactical_analysis/command.py:40 | different numbers print differently |

## Left out

- main.py, the driver that runs the lexer and then calls `analyze`, is not part of this model. Neither is `write` (analyzer.py:31-33), which writes the buffer to a file, nor the `print()` at analyzer.py:50.
- The lexer and the token module are not part of this model. Tokens arrive as a finished list, and the identifier state as a symbol table.
- ExpressionAnalysis.TypeOf, Tokens.ConstType, Tokens.OperatorName, Tokens.IsPrimitive and Folding.FoldStep rest on assumptions about that token module. A token that is not an identifier or a numeric constant has no `.type` attribute, so reading one is `NoTypeAttribute`. A numeric constant's `.type` is `int` or `float`. `operator.name` (command.py:62 and :84) is the operator's source text (`+`, `and`, `==`, ...). A primitive type is recognised by its name (`int`, `float`, `bool`) where analyzer.py:46 compares the type token with `INT_TOKEN`, `FLOAT_TOKEN` and `BOOL_TOKEN`. The category constants are truthy, so `not token.category` (expression_analyzer.py:37, utils.py:16) holds exactly for an identifier without a category.
- temp_var.py is not part of this model. Temporary names come from the `alloc` parameter.
- Analyzer.SyntacticalAnalyzer.Analyze: the call `match_case_data.analyze()` at analyzer.py:282 is not modelled. `MatchCaseData` in match_case_data.py defines no such method, so as written every program whose `match` statement parses stops there with an `AttributeError`, while the model's `Program` accepts it. The model hands each parsed match (target path and cases) back in `matches` and emits no code for it.
- Analyzer.SyntacticalAnalyzer.Analyze: the final `fix_commands()` at analyzer.py:285 is not modelled, because commands.py does not define it. As written, the import `from .commands import commands, fix_commands` at analyzer.py:21 already fails with an `ImportError`, so the module cannot be loaded at all; the model analyzes as if that import and call were absent. Jumps keep the indices they were created with.
- Analyzer.SyntacticalAnalyzer.Analyze: after a failed analysis the contract states the outcome and the code appended so far. It does not state the partly updated token list and identifier state the exception leaves behind.
- Analyzer.SyntacticalAnalyzer.CheckFrame: on failure the contract does not state which pops of the token list had already happened.
- Analyzer.SyntacticalAnalyzer.DeclarationPart: on failure the contract does not state the identifier state that was partly updated before the error.
- Analyzer.SyntacticalAnalyzer.VarDefinition: on failure the contract does not state the identifier state that was partly updated before the error.
- Exception classes are the constructors of `Errors.Error`. Their inheritance and their messages are not modelled. Several names the analyzer imports are missing from custom_exceptions.py (IdentifierExpectedError, CaseExpectedError, ColonExpectedError and others); each is still modelled as its own error.
- The `and` handler is never called by the expression analyzer. It is modelled on its own, as handlers.py defines it. Arithmetic, `or` and comparisons have no handler in the source and emit no code.
- Python's `deepcopy` of a class's fields becomes a copy of an immutable value. No aliasing between tables is modelled, because after the copy the source has none either.
- Integers are Python's unbounded integers, so no width is modelled.
