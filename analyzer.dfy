/**
 * `SyntacticalAnalyzer` (syntactical_analysis/analyzer.py): the analyzer object holds the
 * token list, which it trims in place, and reaches the identifier objects through the
 * tokens. A program is
 *
 *     start_prog
 *     block_var_def
 *       <declarations>
 *     endblock_var_def
 *       <statements>
 *     end_prog
 *
 * `Analyze` checks the frame, runs the declaration scan, then the statement loop.
 * Its specification is `Program`, that is `ProgramSpec` with the program's own expression
 * analyzer and match parser, built from the functions of the Declarations and Statements
 * modules; each method of the class is proved against the function for the loop it runs
 * (`AnalyzeWith` states `analyze` for any analyzer and parser that agree with those).
 */
module Analyzer {
  import opened Wrappers
  import opened Errors
  import opened Tokens
  import opened Commands
  import opened ExpressionAnalysis
  import opened Declarations
  import opened Statements
  import opened Folding

  // ---------------------------------------------------------------------------------
  // The frame of a program.

  /** `_clean_nl_tokens`: the list without its leading line breaks. */
  function DropLeadingNL(ts: seq<Token>): (r: seq<Token>)
    ensures r != [] ==> r[0] != NL
    decreases |ts|
  {
    if ts != [] && ts[0] == NL then DropLeadingNL(ts[1..]) else ts
  }

  /** What is dropped is line breaks only, and what is kept is the rest of the list. */
  lemma {:induction false} DropLeadingNLMeaning(ts: seq<Token>)
    ensures var r := DropLeadingNL(ts);
      |r| <= |ts| && r == ts[|ts| - |r|..] && forall k :: 0 <= k < |ts| - |r| ==> ts[k] == NL
    decreases |ts|
  {
    if ts != [] && ts[0] == NL {
      DropLeadingNLMeaning(ts[1..]);
      var r := DropLeadingNL(ts);
      assert ts[1..][|ts| - 1 - |r|..] == ts[|ts| - |r|..];
      forall k | 0 <= k < |ts| - |r|
        ensures ts[k] == NL
      {
        if k > 0 {
          assert ts[k] == ts[1..][k - 1];
        }
      }
    }
  }

  /** Dropping the leading line breaks again changes nothing. */
  lemma DropLeadingNLIdempotent(ts: seq<Token>)
    ensures DropLeadingNL(DropLeadingNL(ts)) == DropLeadingNL(ts)
  {
  }

  /** Dropping line breaks keeps every other token of the list. */
  lemma DropLeadingNLKeeps(ts: seq<Token>, t: Token)
    requires t != NL
    ensures t in DropLeadingNL(ts) <==> t in ts
  {
    var r := DropLeadingNL(ts);
    DropLeadingNLMeaning(ts);
    if t in ts {
      var k :| 0 <= k < |ts| && ts[k] == t;
      assert r[k - (|ts| - |r|)] == t;
    }
  }

  /** What `analyze` leaves: its outcome, the code and matches of its statements, and the table. */
  datatype Analyzed = Analyzed(
    outcome: Outcome, emitted: seq<Instruction>, matches: seq<MatchCaseData>,
    table: SymbolTable, rest: seq<Token>)

  function Failed(e: Error, sym: SymbolTable): Analyzed {
    Analyzed(Fail(e), [], [], sym, [])
  }

  /**
   * The declaration part of the program: the tokens after `block_var_def`, without their
   * leading line breaks and with one line break in front, as `_var_definition` reads them.
   */
  function DeclarationTokens(body: seq<Token>): (r: seq<Token>)
    requires body != []
    ensures body[0] != EndBlockVarDef && EndBlockVarDef in body ==> EndBlockVarDef in r
  {
    assert EndBlockVarDef in body ==> body[0] == EndBlockVarDef || EndBlockVarDef in body[1..];
    DropLeadingNLKeeps(body[1..], EndBlockVarDef);
    [NL] + DropLeadingNL(body[1..])
  }

  /**
   * The frame of `analyze`: `start_prog` first, `end_prog` last, then, past the line breaks,
   * `block_var_def`, with an `endblock_var_def` somewhere after it. The result is the
   * declaration part, as `_var_definition` reads it.
   */
  function FrameSpec(ts: seq<Token>): (r: Result<seq<Token>>)
    ensures r.Ok? ==> EndBlockVarDef in r.value
  {
    if ts == [] then Err(IndexOutOfRange)
    else if ts[0] != StartProg then Err(StartProgExpected)
    else if ts[|ts| - 1] != EndProg then Err(EndProgExpected)
    else
      var body := DropLeadingNL(ts[1..|ts| - 1]);
      if body == [] then Err(IndexOutOfRange)
      else if body[0] != BlockVarDef then Err(BlockVarDefExpected)
      else if EndBlockVarDef !in body then Err(EndBlockVarDefExpected)
      else Ok(DeclarationTokens(body))
  }

  /** Past a run of line breaks, the list starts at its first other token. */
  lemma {:induction false} DropLeadingNLAt(ts: seq<Token>, m: nat)
    requires m < |ts| && ts[m] != NL && forall q :: 0 <= q < m ==> ts[q] == NL
    ensures DropLeadingNL(ts) == ts[m..]
    decreases m
  {
    if m > 0 {
      DropLeadingNLAt(ts[1..], m - 1);
      assert ts[1..][m - 1..] == ts[m..];
    }
  }

  /**
   * Where the frame puts `block_var_def`: the first token after `start_prog` that is not a
   * line break, with `endblock_var_def` somewhere after it and before `end_prog`.
   */
  ghost predicate FrameAt(ts: seq<Token>, b: nat) {
    2 <= |ts| && ts[0] == StartProg && ts[|ts| - 1] == EndProg
    && 1 <= b < |ts| - 1 && ts[b] == BlockVarDef && (forall q :: 1 <= q < b ==> ts[q] == NL)
    && EndBlockVarDef in ts[b + 1..|ts| - 1]
  }

  /** A frame of that shape is accepted, with the tokens after `block_var_def` as declarations. */
  lemma FrameAtAccepted(ts: seq<Token>, b: nat)
    requires FrameAt(ts, b)
    ensures FrameSpec(ts) == Ok([NL] + DropLeadingNL(ts[b + 1..|ts| - 1]))
  {
    var inner := ts[1..|ts| - 1];
    DropLeadingNLAt(inner, b - 1);
    var body := inner[b - 1..];
    assert body[1..] == ts[b + 1..|ts| - 1];
    assert EndBlockVarDef in body by {
      var k :| b + 1 <= k < |ts| - 1 && ts[k] == EndBlockVarDef;
      assert body[k - b] == EndBlockVarDef;
    }
  }

  /** `block_var_def` after `m` line breaks of the inner part puts the frame at `m + 1`. */
  lemma InnerFrameAt(ts: seq<Token>, inner: seq<Token>, m: nat)
    requires 2 <= |ts| && ts[0] == StartProg && ts[|ts| - 1] == EndProg && inner == ts[1..|ts| - 1]
    requires m < |inner| && inner[m] == BlockVarDef && (forall q :: 0 <= q < m ==> inner[q] == NL)
    requires EndBlockVarDef in inner[m + 1..]
    ensures FrameAt(ts, m + 1)
  {
    forall q | 1 <= q < m + 1
      ensures ts[q] == NL
    {
      assert ts[q] == inner[q - 1];
    }
    assert inner[m + 1..] == ts[m + 2..|ts| - 1];
  }

  /** An accepted frame has that shape. */
  lemma AcceptedFrameAt(ts: seq<Token>) returns (b: nat)
    requires FrameSpec(ts).Ok?
    ensures FrameAt(ts, b)
  {
    var inner := ts[1..|ts| - 1];
    var body := DropLeadingNL(inner);
    DropLeadingNLMeaning(inner);
    var m := |inner| - |body|;
    assert body != [] && body[0] == BlockVarDef && EndBlockVarDef in body;
    assert body[1..] == inner[m + 1..];
    InnerFrameAt(ts, inner, m);
    b := m + 1;
  }

  /**
   * The frame is accepted exactly when it has that shape, and then the declaration part is
   * what follows `block_var_def`, up to `end_prog`.
   */
  lemma FrameSpecMeaning(ts: seq<Token>)
    ensures FrameSpec(ts).Ok? <==> exists b: nat :: FrameAt(ts, b)
    ensures forall b: nat :: FrameAt(ts, b) ==> FrameSpec(ts) == Ok([NL] + DropLeadingNL(ts[b + 1..|ts| - 1]))
  {
    forall b: nat | FrameAt(ts, b)
      ensures FrameSpec(ts) == Ok([NL] + DropLeadingNL(ts[b + 1..|ts| - 1]))
    {
      FrameAtAccepted(ts, b);
    }
    if FrameSpec(ts).Ok? {
      var b := AcceptedFrameAt(ts);
    }
  }

  /** The expression analyzer, for each symbol table. */
  type Analyzers = SymbolTable -> Analysis

  /** The symbol table the declarations leave, and the tokens of the statements. */
  datatype DeclaredBlock = DeclaredBlock(table: SymbolTable, rest: seq<Token>)

  /**
   * The declaration part of `analyze`: `_var_definition` on `decl`, then the tokens after
   * `endblock_var_def` without their leading line breaks.
   */
  function DeclarationPartSpec(decl: seq<Token>, sym: SymbolTable): Result<DeclaredBlock>
    requires EndBlockVarDef in decl
  {
    VarDefinitionEnds(decl, sym);
    match VarDefinitionSpec(decl, sym)
    case Err(e) => Err(e)
    case Ok(d) => Ok(DeclaredBlock(d.table, DropLeadingNL(decl[d.endIndex.value + 1..])))
  }

  /**
   * `analyze` on the token list `ts` with the table `sym` and the buffer at length `l`.
   * The expression analyzer over the declared table is `analyzers(table)`, and match
   * statements are parsed by `parse`.
   */
  function ProgramSpec(ts: seq<Token>, sym: SymbolTable, l: nat, analyzers: Analyzers, parse: MatchParser): Analyzed
    requires Advances(parse)
  {
    match FrameSpec(ts)
    case Err(e) => Failed(e, sym)
    case Ok(decl) => BlockSpec(decl, sym, l, analyzers, parse)
  }

  /** What follows the frame checks: the declarations, then the statements after them. */
  function BlockSpec(decl: seq<Token>, sym: SymbolTable, l: nat, analyzers: Analyzers, parse: MatchParser): Analyzed
    requires EndBlockVarDef in decl && Advances(parse)
  {
    match DeclarationPartSpec(decl, sym)
    case Err(e) => Failed(e, sym)
    case Ok(d) =>
      var run := StatementsFrom(d.rest, 0, analyzers(d.table), parse, l, [], []);
      Analyzed(run.outcome, run.emitted, run.matches, d.table, d.rest)
  }

  /** The expression analyzer of the program, over each table, with temporaries from `alloc`. */
  function AnalyzersOf(alloc: nat -> string): Analyzers {
    (table: SymbolTable) => ExpressionAnalyzerOf(table, alloc)
  }

  /** `analyzers` agrees with the expression analyzer over every table. */
  ghost predicate AreExpressionAnalyzers(analyzers: Analyzers, alloc: nat -> string) {
    forall table: SymbolTable :: IsExpressionAnalyzerOf(analyzers(table), table, alloc)
  }

  /** The parsers of the program meet the requirements of `Analyze`. */
  lemma ProgramParsers(alloc: nat -> string)
    ensures Advances(MatchAt) && IsMatchAt(MatchAt) && AreExpressionAnalyzers(AnalyzersOf(alloc), alloc)
  {
    MatchAtIsSound();
  }

  // ---------------------------------------------------------------------------------
  // What a whole analysis guarantees.

  /** The expression analyzer over every table keeps every jump target at most the buffer length. */
  ghost predicate AllKeepJumpsBounded(analyzers: Analyzers) {
    forall table: SymbolTable :: KeepsJumpsBounded(analyzers(table))
  }

  /** `analyze` only ever emits jump targets of at most the buffer length. */
  lemma ProgramKeepsJumpsBounded(
    prefix: seq<Instruction>, ts: seq<Token>, sym: SymbolTable, analyzers: Analyzers, parse: MatchParser)
    requires Advances(parse) && AllKeepJumpsBounded(analyzers) && JumpsBounded(prefix)
    ensures JumpsBounded(prefix + ProgramSpec(ts, sym, |prefix|, analyzers, parse).emitted)
  {
    assert prefix + [] == prefix;
    if FrameSpec(ts).Ok? {
      var decl := FrameSpec(ts).value;
      var d := DeclarationPartSpec(decl, sym);
      if d.Ok? {
        assert KeepsJumpsBounded(analyzers(d.value.table));
        StatementsKeepJumpsBounded(prefix, d.value.rest, 0, analyzers(d.value.table), parse, |prefix|, [], []);
      }
    }
  }

  /** Every match statement `analyze` collects has a path target and well-formed cases. */
  lemma ProgramParsesWellFormedMatches(
    ts: seq<Token>, sym: SymbolTable, l: nat, analyzers: Analyzers, parse: MatchParser)
    requires Advances(parse) && ParsesWellFormed(parse)
    ensures AllWellFormed(ProgramSpec(ts, sym, l, analyzers, parse).matches)
  {
    if FrameSpec(ts).Ok? {
      var decl := FrameSpec(ts).value;
      var d := DeclarationPartSpec(decl, sym);
      if d.Ok? {
        StatementsParseWellFormedMatches(d.value.rest, 0, analyzers(d.value.table), parse, l, [], []);
      }
    }
  }

  /**
   * The table `analyze` leaves keeps every category already set, and is well formed when
   * the table it started from is.
   */
  lemma ProgramKeepsTable(ts: seq<Token>, sym: SymbolTable, l: nat, analyzers: Analyzers, parse: MatchParser)
    requires Advances(parse)
    ensures KeepsCategories(sym, ProgramSpec(ts, sym, l, analyzers, parse).table)
    ensures WellFormedTable(sym) ==> WellFormedTable(ProgramSpec(ts, sym, l, analyzers, parse).table)
  {
    if FrameSpec(ts).Ok? {
      var decl := FrameSpec(ts).value;
      VarDefinitionEnds(decl, sym);
      VarDefFromKeepsCategories(decl, 0, DeclState(Outside, sym));
      if WellFormedTable(sym) {
        VarDefFromKeepsWellFormed(decl, 0, DeclState(Outside, sym));
      }
    }
  }

  /**
   * The analysis fails with the error of the first stage that fails; it passes only when
   * the frame and the declarations do.
   */
  lemma ProgramOutcome(ts: seq<Token>, sym: SymbolTable, l: nat, analyzers: Analyzers, parse: MatchParser)
    requires Advances(parse)
    ensures var r := ProgramSpec(ts, sym, l, analyzers, parse);
      (FrameSpec(ts).Err? ==> r == Failed(FrameSpec(ts).error, sym))
      && (r.outcome.Pass? ==> exists b: nat :: FrameAt(ts, b))
      && (FrameSpec(ts).Ok? && DeclarationPartSpec(FrameSpec(ts).value, sym).Err? ==>
            r == Failed(DeclarationPartSpec(FrameSpec(ts).value, sym).error, sym))
  {
    FrameSpecMeaning(ts);
  }

  /** `analyze` with the program's own expression analyzer and match parser. */
  function Program(ts: seq<Token>, sym: SymbolTable, l: nat, alloc: nat -> string): Analyzed {
    MatchAtIsSound();
    ProgramSpec(ts, sym, l, AnalyzersOf(alloc), MatchAt)
  }

  /** With the program's own expression analyzer and match parser, both guarantees hold. */
  lemma AnalysisIsSound(alloc: nat -> string, prefix: seq<Instruction>, ts: seq<Token>, sym: SymbolTable)
    requires JumpsBounded(prefix)
    ensures var r := Program(ts, sym, |prefix|, alloc);
      JumpsBounded(prefix + r.emitted) && AllWellFormed(r.matches)
  {
    MatchAtIsSound();
    forall table: SymbolTable
      ensures KeepsJumpsBounded(AnalyzersOf(alloc)(table))
    {
      ExpressionAnalyzerKeepsJumpsBounded(table, alloc);
    }
    ProgramKeepsJumpsBounded(prefix, ts, sym, AnalyzersOf(alloc), MatchAt);
    ProgramParsesWellFormedMatches(ts, sym, |prefix|, AnalyzersOf(alloc), MatchAt);
  }

  // ---------------------------------------------------------------------------------
  // The analyzer object.

  class SyntacticalAnalyzer {
    /** `self.tokens`. */
    var tokens: seq<Token>
    /** The identifier objects the tokens refer to, by name. */
    var symbols: SymbolTable

    constructor (ts: seq<Token>, sym: SymbolTable)
      ensures tokens == ts && symbols == sym
    {
      tokens := ts;
      symbols := sym;
    }

    /** `_clean_nl_tokens`: pop the first token while it is a line break. */
    method CleanNlTokens()
      modifies this
      ensures tokens == DropLeadingNL(old(tokens)) && symbols == old(symbols)
    {
      while |tokens| > 0 && tokens[0] == NL
        invariant DropLeadingNL(tokens) == DropLeadingNL(old(tokens)) && symbols == old(symbols)
        decreases |tokens|
      {
        tokens := tokens[1..];
      }
    }

    /** `_add_identifier_category`: declare `name` with category `c` and, for a variable, its type. */
    method AddIdentifierCategory(name: string, c: Category, typeName: Option<string>) returns (r: Outcome)
      requires c == VarCategory ==> typeName.Some?
      modifies this
      ensures tokens == old(tokens)
      ensures var d := Declarations.AddIdentifierCategory(old(symbols), name, c, typeName);
        (d.Err? ==> r == Fail(d.error) && symbols == old(symbols))
        && (d.Ok? ==> r == Pass && symbols == d.value)
    {
      var id := Lookup(symbols, name);
      if id.category.Some? {
        return Fail(IdentifierRedeclaration);
      }
      id := id.(category := Some(c));
      if typeName.Some? {
        id := id.(typ := typeName);
      }
      if c == VarCategory && !IsPrimitive(typeName.value) {
        id := id.(fields := Lookup(symbols, typeName.value).fields);
      }
      symbols := symbols[name := id];
      return Pass;
    }

    /** The token at `index` outside a class declaration, in the loop of `_var_definition`. */
    method OutsideToken(index: nat) returns (step: DeclStep)
      requires index < |tokens|
      modifies this
      ensures tokens == old(tokens)
      ensures step == OutsideStep(tokens, index, old(symbols))
      ensures symbols == (if step.Proceed? then step.state.table else old(symbols))
    {
      var token := tokens[index];
      var stay := Proceed(DeclState(Outside, symbols));
      if token == NL {
        if index > 0 {
          var prev := tokens[index - 1];
          if !prev.Ident? || Lookup(symbols, prev.name).category == Some(TypeCategory) {
            return Rejected(VarNameExpected);
          }
        }
        return stay;
      } else if token == EndBlockVarDef {
        if Prev(tokens, index) != NL {
          return Rejected(Analysis);
        }
        return Ended(index);
      } else if token == Class {
        if Prev(tokens, index) != NL {
          return Rejected(Analysis);
        }
        return stay;
      } else if token.Ident? {
        var prev := Prev(tokens, index);
        if prev == NL {
          if Lookup(symbols, token.name).category != Some(TypeCategory) {
            return Rejected(TypeNameExpected);
          }
          return stay;
        } else if prev == Class {
          var r := AddIdentifierCategory(token.name, TypeCategory, None);
          if r.Fail? {
            return Rejected(r.error);
          }
          return Proceed(DeclState(InClass(token.name), symbols));
        } else if prev.Ident? && Lookup(symbols, prev.name).category == Some(TypeCategory) {
          var r := AddIdentifierCategory(token.name, VarCategory, Some(prev.name));
          if r.Fail? {
            return Rejected(r.error);
          }
          return Proceed(DeclState(Outside, symbols));
        }
        return Rejected(Analysis);
      }
      return stay;
    }

    /** The token at `index` inside the declaration of class `cls`. */
    method InClassToken(index: nat, cls: string) returns (step: DeclStep)
      requires index < |tokens|
      modifies this
      ensures tokens == old(tokens)
      ensures step == InClassStep(tokens, index, cls, old(symbols))
      ensures symbols == (if step.Proceed? then step.state.table else old(symbols))
    {
      var token := tokens[index];
      var prev := Prev(tokens, index);
      var stay := Proceed(DeclState(InClass(cls), symbols));
      if token == Colon && prev == Ident(cls) {
        return stay;
      } else if token == NL {
        if index + 1 == |tokens| {
          return Rejected(IndexOutOfRange);
        }
        var next := tokens[index + 1];
        if prev == Colon {
          if next != Tab {
            return Rejected(TabExpected);
          }
          return stay;
        } else if next == Tab {
          return stay;
        }
        return Proceed(DeclState(Outside, symbols));
      } else if token == Tab {
        if prev != NL {
          return Rejected(NewLineExpected);
        }
        return stay;
      } else if token.Ident? {
        if prev == Tab {
          if index + 1 == |tokens| {
            return Rejected(IndexOutOfRange);
          }
          var next := tokens[index + 1];
          if Lookup(symbols, token.name).category != Some(TypeCategory) {
            return Rejected(TypeNameExpected);
          }
          if !next.Ident? {
            return Rejected(VarNameExpected);
          }
          return stay;
        } else if prev.Ident? {
          if Lookup(symbols, token.name).category == Some(TypeCategory) {
            return Rejected(VarNameExpected);
          }
          var owner := Lookup(symbols, cls);
          if FieldNamed(owner.fields, token.name).Some? {
            return Rejected(FieldRedeclaration);
          }
          var field := Identifier(token.name, |owner.fields|, Some(VarCategory), Some(prev.name), []);
          symbols := symbols[cls := owner.(fields := owner.fields + [field])];
          return Proceed(DeclState(InClass(cls), symbols));
        }
        return Rejected(Analysis);
      }
      return Rejected(Analysis);
    }

    /**
     * `_var_definition`: the index of `endblock_var_def`, or None when the loop runs off
     * the end of the tokens. On success the table holds the declarations.
     */
    method VarDefinition() returns (r: Result<Option<nat>>)
      modifies this
      ensures tokens == old(tokens)
      ensures var spec := VarDefinitionSpec(old(tokens), old(symbols));
        (spec.Err? ==> r == Err(spec.error))
        && (spec.Ok? ==> r == Ok(spec.value.endIndex) && symbols == spec.value.table)
    {
      // `in_class_declaration_state` and `new_class_token` together.
      var mode := Outside;
      ghost var whole := VarDefinitionSpec(tokens, symbols);
      var index := 0;
      while index < |tokens|
        invariant index <= |tokens| && tokens == old(tokens)
        invariant whole == VarDefFrom(tokens, index, DeclState(mode, symbols))
        decreases |tokens| - index
      {
        ghost var cur := DeclState(mode, symbols);
        var step;
        match mode {
          case Outside =>
            step := OutsideToken(index);
          case InClass(cls) =>
            step := InClassToken(index, cls);
        }
        assert step == StepAt(tokens, index, cur);
        match step
        case Rejected(e) =>
          return Err(e);
        case Ended(k) =>
          return Ok(Some(k));
        case Proceed(st) =>
          mode := st.mode;
          index := index + 1;
      }
      return Ok(None);
    }

    /**
     * The expression line that starts at `start`: `expression_tokens`, collected up to the
     * next line break or the end of the tokens.
     */
    method CollectExpression(start: nat) returns (r: Result<nat>, expression: seq<Token>)
      requires start < |tokens|
      ensures r == Collect(tokens, start)
      ensures r.Ok? ==> expression == tokens[start..r.value]
    {
      var ts := tokens;
      expression := [ts[start]];
      var index := start + 1;
      while index < |ts| && ts[index] != NL
        invariant start + 1 <= index <= |ts|
        invariant CollectFrom(ts, start + 1) == CollectFrom(ts, index)
        invariant expression == ts[start..index]
        decreases |ts| - index
      {
        var token := ts[index];
        if !IsExpressionToken(token) {
          return Err(WrongToken), expression;
        }
        expression := expression + [token];
        index := index + 1;
      }
      return Ok(index), expression;
    }

    /** The loop that reads the target of the match at `c`: `target_identifier_tokens`. */
    method ParseTarget(c: nat) returns (r: Result<Scanned<seq<Token>>>)
      requires c + 1 <= |tokens|
      ensures r == TargetFrom(tokens, c + 1, [])
    {
      ghost var whole := TargetFrom(tokens, c + 1, []);
      var target := [];
      var index := c + 1;
      while index < |tokens|
        invariant c + 1 <= index <= |tokens|
        invariant whole == TargetFrom(tokens, index, target)
        decreases |tokens| - index
      {
        var token := tokens[index];
        var prev := tokens[index - 1];
        if token == NL {
          if prev != Colon {
            return Err(WrongToken);
          }
          return Ok(Scanned(index, target));
        }
        if token == Colon && !prev.Ident? {
          return Err(IdentifierExpected);
        }
        if token.Ident? {
          if prev != Match && prev != Point {
            return Err(WrongToken);
          }
          if index + 1 == |tokens| {
            return Err(IndexOutOfRange);
          }
          var next := tokens[index + 1];
          if next != Colon && next != Point {
            return Err(WrongToken);
          }
          target := target + [token];
        } else if token == Point {
          if index + 1 == |tokens| {
            return Err(IndexOutOfRange);
          }
          var next := tokens[index + 1];
          if !(prev.Ident? && next.Ident?) {
            return Err(IdentifierExpected);
          }
          target := target + [token];
        }
        index := index + 1;
      }
      return Err(IndexOutOfRange);
    }

    /** One pass of the case loop, at the token at `index`, with the value of the open case. */
    method CaseStep(index: nat, pending: Option<Token>) returns (s: CaseStep)
      requires 1 <= index <= |tokens| + 1
      ensures s == CaseStepAt(tokens, index, pending)
    {
      if index == |tokens| {
        return CasesEnd(index);
      }
      if index + 1 >= |tokens| {
        return CaseError(IndexOutOfRange);
      }
      var token := tokens[index];
      var prev := tokens[index - 1];
      var next := tokens[index + 1];
      if token == Tab {
        if prev == Tab {
          if !next.Ident? {
            return CaseError(WrongToken);
          }
          var end, expression := CollectExpression(index + 1);
          if end.Err? {
            return CaseError(end.error);
          }
          return CaseNext(end.value + 1, None, Some(CaseData(pending, expression)));
        } else if prev == NL {
          if next != Case && next != Tab {
            return CaseError(WrongToken);
          }
        } else {
          return CaseError(WrongToken);
        }
      } else if token == Case {
        if !(next.DigitalConst? || next == Underscore) {
          return CaseError(WrongToken);
        }
      } else if token.DigitalConst? || token == Underscore {
        if prev != Case {
          return CaseError(CaseExpected);
        }
        if next != Colon {
          return CaseError(ColonExpected);
        }
        if token != Underscore {
          return CaseNext(index + 1, Some(token), None);
        }
      } else if token == Colon {
        if !(prev.DigitalConst? || prev == Underscore) {
          return CaseError(WrongToken);
        }
        if next != NL {
          return CaseError(TabExpected);
        }
      } else if token == NL {
        if next != Tab {
          return CasesEnd(index);
        }
      } else {
        return CaseError(Analysis);
      }
      return CaseNext(index + 1, pending, None);
    }

    /** The case loop, from the position after the line break of the target line. */
    method ParseCases(first: nat) returns (r: Result<Scanned<seq<CaseData>>>)
      requires 1 <= first <= |tokens| + 1
      ensures r == CasesFrom(tokens, first, None, [])
    {
      ghost var whole := CasesFrom(tokens, first, None, []);
      var cases: seq<CaseData> := [];
      var pending: Option<Token> := None;
      var index := first;
      while true
        invariant 1 <= index <= |tokens| + 1
        invariant whole == CasesFrom(tokens, index, pending, cases)
        decreases |tokens| + 1 - index
      {
        var step := CaseStep(index, pending);
        match step
        case CasesEnd(k) =>
          return Ok(Scanned(k, cases));
        case CaseError(e) =>
          return Err(e);
        case CaseNext(k, p, completed) =>
          if completed.Some? {
            cases := cases + [completed.value];
          }
          pending := p;
          index := k;
      }
    }

    /** The `match` statement at `c`. */
    method ParseMatch(c: nat) returns (r: Result<Scanned<MatchCaseData>>)
      ensures r == MatchAt(tokens, c)
    {
      if c + 1 >= |tokens| {
        return Err(IndexOutOfRange);
      }
      if !tokens[c + 1].Ident? {
        return Err(IdentifierExpected);
      }
      var target := ParseTarget(c);
      if target.Err? {
        return Err(target.error);
      }
      if target.value.kept == [] {
        return Err(WrongToken);
      }
      var cases := ParseCases(target.value.index + 1);
      if cases.Err? {
        return Err(cases.error);
      }
      return Ok(Scanned(cases.value.index, MatchCaseData(target.value.kept, cases.value.kept)));
    }

    /** The expression statement at `c`: collect its line and run `ExpressionAnalyzer` on it. */
    method ExpressionStatement(c: nat, buf: CommandBuffer, alloc: nat -> string, ghost analyze: Analysis,
                               ghost parse: MatchParser) returns (step: StatementStep)
      requires c < |tokens| && tokens[c].Ident? && Advances(parse)
      requires IsExpressionAnalyzerOf(analyze, symbols, alloc)
      modifies buf
      ensures step == StatementAt(tokens, c, analyze, parse, |old(buf.commands)|)
      ensures buf.commands == old(buf.commands) + step.code
    {
      var end, expression := CollectExpression(c);
      if end.Err? {
        return Halt(end.error, []);
      }
      var before := buf.commands;
      var analyzer, outcome := ExpressionAnalyzer.Run(buf, alloc, expression, symbols);
      var code := buf.commands[|before|..];
      ghost var x := ExpressionSpec(expression, symbols, |before|, alloc);
      assert analyze(expression, |before|) == x;
      assert code == x.emitted;
      if outcome.Fail? {
        return Halt(outcome.error, code);
      }
      return Next(end.value, code, None);
    }

    /**
     * One pass of the statement loop of `analyze`, at the token at `c`. The expression
     * analyzer and the match parser of the specification are passed in as `analyze` and
     * `parse`, and stand for the ones this method runs; `steps` is `StatementAt` over them.
     */
    method Statement(c: nat, buf: CommandBuffer, alloc: nat -> string, ghost analyze: Analysis,
                     ghost parse: MatchParser, ghost steps: Stepper) returns (step: StatementStep)
      requires c < |tokens| && IsMatchAt(parse) && IsExpressionAnalyzerOf(analyze, symbols, alloc)
      requires StepsOf(steps, tokens, analyze, parse)
      modifies buf
      ensures step == steps(c, |old(buf.commands)|)
      ensures buf.commands == old(buf.commands) + step.code
    {
      var token := tokens[c];
      if token == NL {
        step := Next(c + 1, [], None);
      } else if token.Ident? {
        step := ExpressionStatement(c, buf, alloc, analyze, parse);
      } else if token == Match {
        var m := ParseMatch(c);
        assert m == parse(tokens, c);
        if m.Err? {
          step := Halt(m.error, []);
        } else {
          step := Next(m.value.index, [], Some(m.value.kept));
        }
      } else {
        step := Halt(Analysis, []);
      }
      assert step == StatementAt(tokens, c, analyze, parse, |old(buf.commands)|);
    }

    /**
     * The statement loop of `analyze`, over the tokens after the declarations. It returns
     * the outcome and the match statements it parsed; the code goes to `buf`.
     */
    method Statements(buf: CommandBuffer, alloc: nat -> string, ghost analyze: Analysis, ghost parse: MatchParser)
      returns (r: Outcome, matches: seq<MatchCaseData>)
      requires Advances(parse) && IsMatchAt(parse) && IsExpressionAnalyzerOf(analyze, symbols, alloc)
      modifies buf
      ensures var run := StatementsFrom(tokens, 0, analyze, parse, |old(buf.commands)|, [], []);
        r == run.outcome && matches == run.matches && buf.commands == old(buf.commands) + run.emitted
    {
      ghost var ts, l0 := tokens, |buf.commands|;
      StepsExist(ts, analyze, parse);
      ghost var steps: Stepper :| StepsOf(steps, ts, analyze, parse);
      ghost var whole := LoopFrom(|ts|, 0, steps, l0, [], []);
      ghost var emitted: seq<Instruction> := [];
      r, matches := Pass, [];
      var c := 0;
      while c < |tokens|
        invariant tokens == ts && c <= |ts| && r == Pass
        invariant buf.commands == old(buf.commands) + emitted
        invariant whole == LoopFrom(|ts|, c, steps, l0 + |emitted|, emitted, matches)
        decreases |ts| - c
      {
        var step := Statement(c, buf, alloc, analyze, parse, steps);
        emitted := emitted + step.code;
        if step.Halt? {
          r := Fail(step.error);
          break;
        }
        matches := AddMatch(matches, step.parsed);
        c := step.index;
      }
      assert whole == ProgramRun(r, emitted, matches);
      StatementsFromSteps(steps, ts, 0, analyze, parse, l0, [], []);
    }

    /** The checks of `analyze` on the frame of the program, and the trimming of the tokens. */
    method CheckFrame() returns (r: Outcome)
      modifies this
      ensures symbols == old(symbols)
      ensures var f := FrameSpec(old(tokens));
        (f.Err? ==> r == Fail(f.error)) && (f.Ok? ==> r == Pass && tokens == f.value)
    {
      if |tokens| == 0 {
        return Fail(IndexOutOfRange);
      }
      if tokens[0] != StartProg {
        return Fail(StartProgExpected);
      }
      if tokens[|tokens| - 1] != EndProg {
        return Fail(EndProgExpected);
      }
      ghost var ts := tokens;
      tokens := tokens[1..];
      tokens := tokens[..|tokens| - 1];
      assert tokens == ts[1..|ts| - 1];
      CleanNlTokens();
      ghost var body := tokens;
      if |tokens| == 0 {
        return Fail(IndexOutOfRange);
      }
      if tokens[0] != BlockVarDef {
        return Fail(BlockVarDefExpected);
      }
      if EndBlockVarDef !in tokens {
        return Fail(EndBlockVarDefExpected);
      }
      tokens := tokens[1..];
      CleanNlTokens();
      tokens := [NL] + tokens;
      assert tokens == DeclarationTokens(body);
      return Pass;
    }

    /**
     * The declaration part of `analyze`: `_var_definition`, then the tokens after
     * `endblock_var_def`, without their leading line breaks.
     */
    method DeclarationPart() returns (r: Outcome)
      requires EndBlockVarDef in tokens
      modifies this
      ensures var d := DeclarationPartSpec(old(tokens), old(symbols));
        (d.Err? ==> r == Fail(d.error)) && (d.Ok? ==> r == Pass && tokens == d.value.rest && symbols == d.value.table)
    {
      VarDefinitionEnds(tokens, symbols);
      var end := VarDefinition();
      if end.Err? {
        return Fail(end.error);
      }
      tokens := tokens[end.value.value + 1..];
      CleanNlTokens();
      return Pass;
    }

    /**
     * `analyze`: check that the program opens with `start_prog` and ends with `end_prog`,
     * strip them, check the declaration block, scan it, keep the tokens after
     * `endblock_var_def`, and run the statement loop on them. The code goes to `buf`.
     */
    method AnalyzeWith(buf: CommandBuffer, alloc: nat -> string, ghost analyzers: Analyzers, ghost parse: MatchParser)
      returns (r: Outcome, matches: seq<MatchCaseData>)
      requires Advances(parse) && IsMatchAt(parse) && AreExpressionAnalyzers(analyzers, alloc)
      modifies this, buf
      ensures var spec := ProgramSpec(old(tokens), old(symbols), |old(buf.commands)|, analyzers, parse);
        r == spec.outcome && matches == spec.matches && buf.commands == old(buf.commands) + spec.emitted
        && (r.Pass? ==> tokens == spec.rest && symbols == spec.table)
    {
      var framed := CheckFrame();
      if framed.Fail? {
        return framed, [];
      }
      r, matches := AnalyzeBlock(buf, alloc, analyzers, parse);
    }

    /**
     * `analyze` with the program's own expression analyzer and match parser: the outcome,
     * the code and the matches are those of `Program`.
     */
    method Analyze(buf: CommandBuffer, alloc: nat -> string) returns (r: Outcome, matches: seq<MatchCaseData>)
      modifies this, buf
      ensures var spec := Program(old(tokens), old(symbols), |old(buf.commands)|, alloc);
        r == spec.outcome && matches == spec.matches && buf.commands == old(buf.commands) + spec.emitted
        && (r.Pass? ==> tokens == spec.rest && symbols == spec.table)
    {
      ProgramParsers(alloc);
      r, matches := AnalyzeWith(buf, alloc, AnalyzersOf(alloc), MatchAt);
    }

    /** The declaration part of `analyze` and then its statement loop. */
    method AnalyzeBlock(buf: CommandBuffer, alloc: nat -> string, ghost analyzers: Analyzers, ghost parse: MatchParser)
      returns (r: Outcome, matches: seq<MatchCaseData>)
      requires EndBlockVarDef in tokens
      requires Advances(parse) && IsMatchAt(parse) && AreExpressionAnalyzers(analyzers, alloc)
      modifies this, buf
      ensures var spec := BlockSpec(old(tokens), old(symbols), |old(buf.commands)|, analyzers, parse);
        r == spec.outcome && matches == spec.matches && buf.commands == old(buf.commands) + spec.emitted
        && (r.Pass? ==> tokens == spec.rest && symbols == spec.table)
    {
      var declared := DeclarationPart();
      if declared.Fail? {
        return declared, [];
      }
      r, matches := Statements(buf, alloc, analyzers(symbols), parse);
    }
  }
}
