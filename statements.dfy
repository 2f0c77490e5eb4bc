/**
 * The statement part of a program, after the declaration block (the `while True` loop of
 * `SyntacticalAnalyzer.analyze` in syntactical_analysis/analyzer.py). A statement is an
 * empty line, an expression line that starts with an identifier, or a match statement
 *
 *     match <path>:
 *         case <const or _>:
 *             <expression>
 *         ...
 *
 * This module states, as functions over the token list, how far each piece of the loop
 * reads and what it rejects: the collection of an expression line, the target of a match,
 * its cases, and the whole loop with the code the expression lines emit.
 */
module Statements {
  import opened Wrappers
  import opened Errors
  import opened Tokens
  import opened Commands
  import opened ExpressionAnalysis

  // ---------------------------------------------------------------------------------
  // Expression lines.

  /**
   * The tokens an expression line may hold after its first one: identifiers, numeric
   * constants, operators, `True`/`False`, `=` and `.`.
   */
  predicate IsExpressionToken(t: Token) {
    t.Ident? || t.DigitalConst?
    || t == Plus || t == Minus || t == Div || t == Mult || t == And || t == Or || t == Not
    || t == Equal || t == NotEqual || t == Less || t == More || t == LessEqual || t == MoreEqual
    || t == TrueLit || t == FalseLit || t == Assignment || t == Point
  }

  /** No line break in `ts[a..b]`. */
  predicate NoBreak(ts: seq<Token>, a: nat, b: nat)
    requires a <= b <= |ts|
  {
    forall q :: a <= q < b ==> ts[q] != NL
  }

  /** `ts[m]` is a token that is not allowed and comes before any line break from `k` on. */
  predicate BadBefore(ts: seq<Token>, k: nat, m: nat) {
    k <= m < |ts| && ts[m] != NL && !IsExpressionToken(ts[m]) && NoBreak(ts, k, m)
  }

  /**
   * `ts[k..e]` is an expression line's rest: expression tokens only, up to a line break
   * or the end of the tokens.
   */
  predicate LineOk(ts: seq<Token>, k: nat, e: nat)
    requires k <= e <= |ts|
  {
    (e < |ts| ==> ts[e] == NL) && forall m :: k <= m < e ==> ts[m] != NL && IsExpressionToken(ts[m])
  }

  /**
   * The collection loop from position `k` on: it stops at the first line break or at the
   * end of the tokens, and rejects the first token on the way that is not an expression
   * token. The result is where it stopped.
   */
  function CollectFrom(ts: seq<Token>, k: nat): (r: Result<nat>)
    requires k <= |ts|
    ensures r.Ok? ==> k <= r.value <= |ts| && LineOk(ts, k, r.value)
    ensures r.Err? ==> r.error == WrongToken
    decreases |ts| - k
  {
    if k == |ts| || ts[k] == NL then Ok(k)
    else if !IsExpressionToken(ts[k]) then Err(WrongToken)
    else CollectFrom(ts, k + 1)
  }

  /**
   * An expression line starting at `start`: the tokens up to the next line break (or the
   * end), of which all but the first are expression tokens.
   */
  function Collect(ts: seq<Token>, start: nat): Result<nat>
    requires start < |ts|
  {
    CollectFrom(ts, start + 1)
  }

  /** The collection rejects a line exactly when a token before its end is not allowed. */
  lemma CollectFromRejects(ts: seq<Token>, k: nat)
    requires k <= |ts|
    ensures CollectFrom(ts, k).Err? <==> exists m :: BadBefore(ts, k, m)
  {
    if CollectFrom(ts, k).Ok? {
      CollectFromAcceptsLine(ts, k);
    } else {
      CollectFromRejectsBad(ts, k);
    }
  }

  /** A collected line has no token that is not allowed. */
  lemma CollectFromAcceptsLine(ts: seq<Token>, k: nat)
    requires k <= |ts| && CollectFrom(ts, k).Ok?
    ensures forall m :: !BadBefore(ts, k, m)
  {
    var e := CollectFrom(ts, k).value;
    forall m | k <= m < |ts| && ts[m] != NL && !IsExpressionToken(ts[m])
      ensures !NoBreak(ts, k, m)
    {
      assert e < m && ts[e] == NL;
    }
  }

  /** A rejected line has a token that is not allowed before its end. */
  lemma {:induction false} CollectFromRejectsBad(ts: seq<Token>, k: nat)
    requires k <= |ts| && CollectFrom(ts, k).Err?
    ensures exists m :: BadBefore(ts, k, m)
    decreases |ts| - k
  {
    if IsExpressionToken(ts[k]) {
      CollectFromRejectsBad(ts, k + 1);
      var m :| BadBefore(ts, k + 1, m);
      assert BadBefore(ts, k, m);
    } else {
      assert BadBefore(ts, k, k);
    }
  }

  // ---------------------------------------------------------------------------------
  // Match statements.

  /** `MatchCaseData`: the target's tokens and the cases collected. */
  datatype MatchCaseData = MatchCaseData(target: seq<Token>, cases: seq<CaseData>)

  /** `CaseData`: the constant of the case (None for `_`) and its expression's tokens. */
  datatype CaseData = CaseData(constToken: Option<Token>, expression: seq<Token>)

  /** Where a scan stopped and what it kept. */
  datatype Scanned<T> = Scanned(index: nat, kept: T)

  predicate IsPathToken(t: Token) {
    t.Ident? || t == Point
  }

  /** The identifiers and dots of `s`, in order. */
  function PathTokens(s: seq<Token>): (r: seq<Token>)
    ensures forall k :: 0 <= k < |r| ==> IsPathToken(r[k])
  {
    if s == [] then []
    else if IsPathToken(s[0]) then [s[0]] + PathTokens(s[1..])
    else PathTokens(s[1..])
  }

  /**
   * Every identifier in `ts[j..e]` follows `match` or `.` and is followed by `:` or `.`,
   * and every dot sits between two identifiers.
   */
  predicate PathNeighbours(ts: seq<Token>, j: nat, e: nat)
    requires 1 <= j <= e < |ts|
  {
    (forall m :: j <= m < e && ts[m].Ident? ==>
      (ts[m - 1] == Match || ts[m - 1] == Point) && (ts[m + 1] == Colon || ts[m + 1] == Point))
    && (forall m :: j <= m < e && ts[m] == Point ==> ts[m - 1].Ident? && ts[m + 1].Ident?)
  }

  /**
   * The loop that reads the target of a match, at position `j` having kept `acc`. The line
   * must end in `:`; identifiers and dots are checked against their neighbours and kept,
   * and any other token is passed over.
   */
  function TargetFrom(ts: seq<Token>, j: nat, acc: seq<Token>): (r: Result<Scanned<seq<Token>>>)
    requires 1 <= j <= |ts|
    ensures r.Ok? ==> j <= r.value.index < |ts| && ts[r.value.index] == NL && ts[r.value.index - 1] == Colon
    decreases |ts| - j
  {
    if j == |ts| then Err(IndexOutOfRange)
    else
      var t := ts[j];
      var prev := ts[j - 1];
      if t == NL then
        if prev != Colon then Err(WrongToken) else Ok(Scanned(j, acc))
      else if t == Colon && !prev.Ident? then Err(IdentifierExpected)
      else if t.Ident? && prev != Match && prev != Point then Err(WrongToken)
      else if IsPathToken(t) && j + 1 == |ts| then Err(IndexOutOfRange)
      else if t.Ident? && ts[j + 1] != Colon && ts[j + 1] != Point then Err(WrongToken)
      else if t == Point && !(prev.Ident? && ts[j + 1].Ident?) then Err(IdentifierExpected)
      else TargetFrom(ts, j + 1, if IsPathToken(t) then acc + [t] else acc)
  }

  /**
   * A target read from `j` has no line break before its end, and keeps exactly the
   * identifiers and dots of the line.
   */
  lemma {:induction false} TargetFromKeepsPath(ts: seq<Token>, j: nat, acc: seq<Token>)
    requires 1 <= j <= |ts|
    ensures var r := TargetFrom(ts, j, acc);
      r.Ok? ==> NoBreak(ts, j, r.value.index) && r.value.kept == acc + PathTokens(ts[j..r.value.index])
    decreases |ts| - j
  {
    var r := TargetFrom(ts, j, acc);
    if j < |ts| && r.Ok? && ts[j] != NL {
      var t := ts[j];
      var e := r.value.index;
      var acc' := if IsPathToken(t) then acc + [t] else acc;
      TargetFromKeepsPath(ts, j + 1, acc');
      PathTokensStep(ts, j, e);
      assert acc' + PathTokens(ts[j + 1..e]) == acc + PathTokens(ts[j..e]);
    }
  }

  /** The token at `j` of a target that is read has the neighbours the loop checks. */
  lemma TargetHeadNeighbours(ts: seq<Token>, j: nat, acc: seq<Token>)
    requires 1 <= j < |ts| && ts[j] != NL && TargetFrom(ts, j, acc).Ok?
    ensures j + 1 < |ts|
    ensures ts[j].Ident? ==>
      (ts[j - 1] == Match || ts[j - 1] == Point) && (ts[j + 1] == Colon || ts[j + 1] == Point)
    ensures ts[j] == Point ==> ts[j - 1].Ident? && ts[j + 1].Ident?
    ensures TargetFrom(ts, j, acc) == TargetFrom(ts, j + 1, if IsPathToken(ts[j]) then acc + [ts[j]] else acc)
  {
  }

  /**
   * In a target that is read, every identifier follows `match` or `.` and is followed by
   * `:` or `.`, and every dot sits between two identifiers.
   */
  lemma {:induction false} TargetFromNeighbours(ts: seq<Token>, j: nat, acc: seq<Token>)
    requires 1 <= j <= |ts|
    ensures var r := TargetFrom(ts, j, acc);
      r.Ok? ==> PathNeighbours(ts, j, r.value.index)
    decreases |ts| - j
  {
    var r := TargetFrom(ts, j, acc);
    if j < |ts| && r.Ok? && ts[j] != NL {
      TargetHeadNeighbours(ts, j, acc);
      var acc' := if IsPathToken(ts[j]) then acc + [ts[j]] else acc;
      TargetFromNeighbours(ts, j + 1, acc');
      PathNeighboursExtend(ts, j, r.value.index);
    }
  }

  /** The neighbour checks of `ts[j..e]` are those of its first token and of the rest. */
  lemma PathNeighboursExtend(ts: seq<Token>, j: nat, e: nat)
    requires 1 <= j < e < |ts| && PathNeighbours(ts, j + 1, e)
    requires ts[j].Ident? ==>
      (ts[j - 1] == Match || ts[j - 1] == Point) && (ts[j + 1] == Colon || ts[j + 1] == Point)
    requires ts[j] == Point ==> ts[j - 1].Ident? && ts[j + 1].Ident?
    ensures PathNeighbours(ts, j, e)
  {
  }

  /** The identifiers and dots of `ts[j..e]` are those of its first token and of the rest. */
  lemma PathTokensStep(ts: seq<Token>, j: nat, e: nat)
    requires j < e <= |ts|
    ensures PathTokens(ts[j..e]) == (if IsPathToken(ts[j]) then [ts[j]] else []) + PathTokens(ts[j + 1..e])
  {
    assert ts[j..e][0] == ts[j];
    assert ts[j..e][1..] == ts[j + 1..e];
  }

  /**
   * A case holds a numeric constant or none, and a non-empty expression line that starts
   * with an identifier and holds only expression tokens.
   */
  predicate WellFormedCase(c: CaseData) {
    (c.constToken.Some? ==> c.constToken.value.DigitalConst?)
    && |c.expression| > 0 && c.expression[0].Ident?
    && forall k :: 0 <= k < |c.expression| ==> c.expression[k] != NL && IsExpressionToken(c.expression[k])
  }

  /** The constant seen for the case being read, if any, is numeric. */
  predicate NumericConst(pending: Option<Token>) {
    pending.Some? ==> pending.value.DigitalConst?
  }

  /**
   * One pass of the case loop: the match ends, a token is rejected, or the loop goes on
   * at `index` with the constant seen and, after an expression line, the case it completed.
   */
  datatype CaseStep =
    | CasesEnd(index: nat)
    | CaseError(error: Error)
    | CaseNext(index: nat, pending: Option<Token>, completed: Option<CaseData>)

  /** A match ends at the end of the tokens or at a line break that no tab follows. */
  predicate MatchEndsAt(ts: seq<Token>, k: nat) {
    k <= |ts| && (k < |ts| ==> k + 1 < |ts| && ts[k] == NL && ts[k + 1] != Tab)
  }

  /**
   * The pass at position `j` (the one after the position last examined, which can be past
   * the end). A case line is `case <const or _>:`; an expression line is indented by two
   * tabs and completes the case. The match ends at a line break not followed by a tab,
   * or at the end of the tokens.
   */
  function CaseStepAt(ts: seq<Token>, j: nat, pending: Option<Token>): (r: CaseStep)
    requires 1 <= j <= |ts| + 1
    ensures r.CaseNext? ==> j < r.index <= |ts| + 1
    ensures r.CasesEnd? ==> r.index == j && MatchEndsAt(ts, j)
    ensures r.CaseNext? && NumericConst(pending) ==> NumericConst(r.pending)
  {
    if j == |ts| then CasesEnd(j)
    else if j + 1 >= |ts| then CaseError(IndexOutOfRange)
    else
      var t := ts[j];
      var prev := ts[j - 1];
      var next := ts[j + 1];
      var go := CaseNext(j + 1, pending, None);
      if t == Tab then
        if prev == Tab then
          if !next.Ident? then CaseError(WrongToken)
          else match Collect(ts, j + 1)
            case Err(e) => CaseError(e)
            case Ok(e) => CaseNext(e + 1, None, Some(CaseData(pending, ts[j + 1..e])))
        else if prev == NL then
          if next != Case && next != Tab then CaseError(WrongToken) else go
        else CaseError(WrongToken)
      else if t == Case then
        if !(next.DigitalConst? || next == Underscore) then CaseError(WrongToken) else go
      else if t.DigitalConst? || t == Underscore then
        if prev != Case then CaseError(CaseExpected)
        else if next != Colon then CaseError(ColonExpected)
        else CaseNext(j + 1, if t == Underscore then pending else Some(t), None)
      else if t == Colon then
        if !(prev.DigitalConst? || prev == Underscore) then CaseError(WrongToken)
        else if next != NL then CaseError(TabExpected)
        else go
      else if t == NL then
        if next != Tab then CasesEnd(j) else go
      else CaseError(Analysis)
  }

  /**
   * The checks of one pass: after `case` only a constant or `_` may come; a constant or
   * `_` must follow `case` and be followed by `:`; a constant becomes the pending value
   * while `_` leaves it as it was; and a case is completed only at a second tab.
   */
  lemma CaseStepAtChecks(ts: seq<Token>, j: nat, pending: Option<Token>)
    requires 1 <= j && j + 1 < |ts|
    ensures ts[j] == Case && !(ts[j + 1].DigitalConst? || ts[j + 1] == Underscore) ==>
      CaseStepAt(ts, j, pending) == CaseError(WrongToken)
    ensures (ts[j].DigitalConst? || ts[j] == Underscore) && ts[j - 1] != Case ==>
      CaseStepAt(ts, j, pending) == CaseError(CaseExpected)
    ensures (ts[j].DigitalConst? || ts[j] == Underscore) && ts[j - 1] == Case && ts[j + 1] != Colon ==>
      CaseStepAt(ts, j, pending) == CaseError(ColonExpected)
    ensures ts[j] == Underscore && ts[j - 1] == Case && ts[j + 1] == Colon ==>
      CaseStepAt(ts, j, pending) == CaseNext(j + 1, pending, None)
    ensures ts[j].DigitalConst? && ts[j - 1] == Case && ts[j + 1] == Colon ==>
      CaseStepAt(ts, j, pending) == CaseNext(j + 1, Some(ts[j]), None)
    ensures var r := CaseStepAt(ts, j, pending);
      r.CaseNext? && r.completed.Some? ==> ts[j] == Tab && ts[j - 1] == Tab
  {
  }

  function AddCase(cases: seq<CaseData>, completed: Option<CaseData>): seq<CaseData> {
    if completed.Some? then cases + [completed.value] else cases
  }

  /** The case loop from position `j`, with the cases completed so far. */
  function CasesFrom(ts: seq<Token>, j: nat, pending: Option<Token>, cases: seq<CaseData>)
    : Result<Scanned<seq<CaseData>>>
    requires 1 <= j <= |ts| + 1
    decreases |ts| + 1 - j
  {
    match CaseStepAt(ts, j, pending)
    case CasesEnd(k) => Ok(Scanned(k, cases))
    case CaseError(e) => Err(e)
    case CaseNext(k, p, c) => CasesFrom(ts, k, p, AddCase(cases, c))
  }

  /** A case completed by an expression line is well formed. */
  lemma CaseStepCompletesWellFormed(ts: seq<Token>, j: nat, pending: Option<Token>)
    requires 1 <= j <= |ts| + 1 && NumericConst(pending)
    ensures var r := CaseStepAt(ts, j, pending);
      r.CaseNext? && r.completed.Some? ==> WellFormedCase(r.completed.value)
  {
    var r := CaseStepAt(ts, j, pending);
    if r.CaseNext? && r.completed.Some? {
      var e := Collect(ts, j + 1).value;
      var line := ts[j + 1..e];
      assert r.completed.value == CaseData(pending, line);
      forall k | 0 <= k < |line|
        ensures line[k] != NL && IsExpressionToken(line[k])
      {
        assert line[k] == ts[j + 1 + k];
      }
    }
  }

  predicate AllCasesWellFormed(cases: seq<CaseData>) {
    forall k :: 0 <= k < |cases| ==> WellFormedCase(cases[k])
  }

  /** The cases of a match are well formed. */
  lemma {:induction false} CasesFromWellFormed(ts: seq<Token>, j: nat, pending: Option<Token>, cases: seq<CaseData>)
    requires 1 <= j <= |ts| + 1
    requires NumericConst(pending) && AllCasesWellFormed(cases)
    ensures CasesFrom(ts, j, pending, cases).Ok? ==> AllCasesWellFormed(CasesFrom(ts, j, pending, cases).value.kept)
    decreases |ts| + 1 - j
  {
    var step := CaseStepAt(ts, j, pending);
    if step.CaseNext? {
      CaseStepCompletesWellFormed(ts, j, pending);
      assert AllCasesWellFormed(AddCase(cases, step.completed));
      CasesFromWellFormed(ts, step.index, step.pending, AddCase(cases, step.completed));
    }
  }

  /** The match ends at the end of the tokens or at a line break that no tab follows. */
  lemma {:induction false} CasesFromEnds(ts: seq<Token>, j: nat, pending: Option<Token>, cases: seq<CaseData>)
    requires 1 <= j <= |ts| + 1
    ensures var r := CasesFrom(ts, j, pending, cases);
      r.Ok? ==> j <= r.value.index && MatchEndsAt(ts, r.value.index)
    decreases |ts| + 1 - j
  {
    match CaseStepAt(ts, j, pending)
    case CasesEnd(k) =>
    case CaseError(e) =>
    case CaseNext(k, p, c) =>
      CasesFromEnds(ts, k, p, AddCase(cases, c));
  }

  /**
   * A match statement at `c`: `match` must be followed by an identifier, then the target
   * line is read, then the cases. The result is where the loop resumes.
   */
  function MatchAt(ts: seq<Token>, c: nat): Result<Scanned<MatchCaseData>> {
    if c + 1 >= |ts| then Err(IndexOutOfRange)
    else if !ts[c + 1].Ident? then Err(IdentifierExpected)
    else match TargetFrom(ts, c + 1, [])
      case Err(e) => Err(e)
      case Ok(target) =>
        if target.kept == [] then Err(WrongToken)
        else match CasesFrom(ts, target.index + 1, None, [])
          case Err(e) => Err(e)
          case Ok(cases) => Ok(Scanned(cases.index, MatchCaseData(target.kept, cases.kept)))
  }

  /** A non-empty target of identifiers and dots, and well-formed cases. */
  predicate WellFormedMatch(m: MatchCaseData) {
    |m.target| > 0
    && (forall k :: 0 <= k < |m.target| ==> IsPathToken(m.target[k]))
    && AllCasesWellFormed(m.cases)
  }

  /**
   * A match statement that parses has a non-empty target made of identifiers and dots,
   * and well-formed cases; the loop resumes after the target line, at the end of the
   * tokens or at the line break that ends the match.
   */
  lemma MatchAtMeaning(ts: seq<Token>, c: nat)
    ensures var r := MatchAt(ts, c);
      r.Ok? ==>
        c < r.value.index <= |ts|
        && (r.value.index < |ts| ==> ts[r.value.index] == NL)
        && WellFormedMatch(r.value.kept)
  {
    var r := MatchAt(ts, c);
    if r.Ok? {
      var target := TargetFrom(ts, c + 1, []).value;
      var cases := CasesFrom(ts, target.index + 1, None, []);
      assert r.value == Scanned(cases.value.index, MatchCaseData(target.kept, cases.value.kept));
      TargetKeepsPathTokens(ts, c + 1);
      CasesFromEnds(ts, target.index + 1, None, []);
      CasesFromWellFormed(ts, target.index + 1, None, []);
    }
  }

  lemma TargetKeepsPathTokens(ts: seq<Token>, j: nat)
    requires 1 <= j <= |ts|
    ensures TargetFrom(ts, j, []).Ok? ==>
      forall k :: 0 <= k < |TargetFrom(ts, j, []).value.kept| ==> IsPathToken(TargetFrom(ts, j, []).value.kept[k])
  {
    if TargetFrom(ts, j, []).Ok? {
      var target := TargetFrom(ts, j, []).value;
      TargetFromKeepsPath(ts, j, []);
      assert [] + PathTokens(ts[j..target.index]) == target.kept;
    }
  }

  /** The target check after the target loop never fires: the first token is kept. */
  lemma TargetNeverEmpty(ts: seq<Token>, c: nat)
    requires c + 1 < |ts| && ts[c] == Match && ts[c + 1].Ident?
    ensures TargetFrom(ts, c + 1, []).Ok? ==> TargetFrom(ts, c + 1, []).value.kept != []
  {
    if TargetFrom(ts, c + 1, []).Ok? {
      var target := TargetFrom(ts, c + 1, []).value;
      TargetFromKeepsPath(ts, c + 1, []);
      assert ts[c + 1..target.index][0] == ts[c + 1];
    }
  }

  // ---------------------------------------------------------------------------------
  // The statement loop.

  /** The outcome of the statements, the code they emitted and the matches they parsed. */
  datatype ProgramRun = ProgramRun(outcome: Outcome, emitted: seq<Instruction>, matches: seq<MatchCaseData>)

  /**
   * One statement: it fails, with the code emitted up to the failure, or the loop goes on
   * at `index` with the code it emitted and the match it parsed, if any.
   */
  datatype StatementStep =
    | Halt(error: Error, code: seq<Instruction>)
    | Next(index: nat, code: seq<Instruction>, parsed: Option<MatchCaseData>)

  /**
   * What the loop does with an expression line: `analyze(line, l)` is the analysis of the
   * line's tokens with the buffer at length `l`.
   */
  type Analysis = (seq<Token>, nat) -> NotRun

  /**
   * What the loop does with a `match` keyword at position `c`: it parses the statement
   * and says where the loop resumes.
   */
  type MatchParser = (seq<Token>, nat) -> Result<Scanned<MatchCaseData>>

  /** A parser that resumes the loop past the `match` keyword and within the tokens. */
  ghost predicate Advances(parse: MatchParser) {
    forall ts: seq<Token>, c: nat :: parse(ts, c).Ok? ==> c < parse(ts, c).value.index <= |ts|
  }

  /** A parser whose every match statement is well formed. */
  ghost predicate ParsesWellFormed(parse: MatchParser) {
    forall ts: seq<Token>, c: nat :: parse(ts, c).Ok? ==> WellFormedMatch(parse(ts, c).value.kept)
  }

  /** The match parser advances and parses well-formed match statements. */
  lemma MatchAtIsSound()
    ensures Advances(MatchAt) && ParsesWellFormed(MatchAt)
  {
    forall ts: seq<Token>, c: nat
      ensures MatchAt(ts, c).Ok? ==> c < MatchAt(ts, c).value.index <= |ts| && WellFormedMatch(MatchAt(ts, c).value.kept)
    {
      MatchAtMeaning(ts, c);
    }
  }

  /** `ExpressionAnalyzer(tokens=...)` with the symbol table `sym`. */
  function ExpressionAnalyzerOf(sym: SymbolTable, alloc: nat -> string): Analysis {
    (line: seq<Token>, l: nat) => ExpressionSpec(line, sym, l, alloc)
  }

  /** `parse` agrees with `MatchAt` everywhere. */
  ghost predicate IsMatchAt(parse: MatchParser) {
    forall ts: seq<Token>, c: nat {:trigger MatchAt(ts, c)} :: parse(ts, c) == MatchAt(ts, c)
  }

  /** `analyze` agrees with the expression analyzer over `sym` everywhere. */
  ghost predicate IsExpressionAnalyzerOf(analyze: Analysis, sym: SymbolTable, alloc: nat -> string) {
    forall line: seq<Token>, l: nat {:trigger ExpressionSpec(line, sym, l, alloc)} ::
      analyze(line, l) == ExpressionSpec(line, sym, l, alloc)
  }

  /**
   * The statement at position `c`, with buffer length `l`. A line break is passed over; an
   * expression line is collected and analyzed, and its code stays in the buffer even when
   * its analysis fails part-way; a match statement is parsed.
   */
  function StatementAt(ts: seq<Token>, c: nat, analyze: Analysis, parse: MatchParser, l: nat): (r: StatementStep)
    requires c < |ts| && Advances(parse)
    ensures r.Next? ==> c < r.index <= |ts|
    ensures r.Next? && r.parsed.None? && ts[c] != NL ==>
      ts[c].Ident? && Collect(ts, c) == Ok(r.index) && r.code == analyze(ts[c..r.index], l).emitted
  {
    if ts[c] == NL then Next(c + 1, [], None)
    else if ts[c].Ident? then
      match Collect(ts, c)
      case Err(e) => Halt(e, [])
      case Ok(e) =>
        var x := analyze(ts[c..e], l);
        if x.outcome.Fail? then Halt(x.outcome.error, x.emitted) else Next(e, x.emitted, None)
    else if ts[c] == Match then
      match parse(ts, c)
      case Err(e) => Halt(e, [])
      case Ok(m) => Next(m.index, [], Some(m.kept))
    else Halt(Analysis, [])
  }

  /** A match statement the loop parses is well formed. */
  lemma StatementAtParsesWellFormed(ts: seq<Token>, c: nat, analyze: Analysis, parse: MatchParser, l: nat)
    requires c < |ts| && Advances(parse) && ParsesWellFormed(parse)
    ensures var r := StatementAt(ts, c, analyze, parse, l);
      r.Next? && r.parsed.Some? ==> WellFormedMatch(r.parsed.value)
  {
  }

  /** An analysis that keeps every jump target at most the buffer length. */
  ghost predicate KeepsJumpsBounded(analyze: Analysis) {
    forall line: seq<Token>, prefix: seq<Instruction> ::
      JumpsBounded(prefix) ==> JumpsBounded(prefix + analyze(line, |prefix|).emitted)
  }

  /** The expression analyzer keeps every jump target at most the buffer length. */
  lemma ExpressionAnalyzerKeepsJumpsBounded(sym: SymbolTable, alloc: nat -> string)
    ensures KeepsJumpsBounded(ExpressionAnalyzerOf(sym, alloc))
  {
    forall line: seq<Token>, prefix: seq<Instruction> | JumpsBounded(prefix)
      ensures JumpsBounded(prefix + ExpressionAnalyzerOf(sym, alloc)(line, |prefix|).emitted)
    {
      ExpressionKeepsJumpsBounded(prefix, line, sym, alloc);
    }
  }

  /** One statement keeps every jump target at most the buffer length. */
  lemma StatementKeepsJumpsBounded(prefix: seq<Instruction>, ts: seq<Token>, c: nat, analyze: Analysis, parse: MatchParser)
    requires c < |ts| && Advances(parse) && JumpsBounded(prefix) && KeepsJumpsBounded(analyze)
    ensures JumpsBounded(prefix + StatementAt(ts, c, analyze, parse, |prefix|).code)
  {
    if ts[c].Ident? && Collect(ts, c).Ok? {
      var line := ts[c..Collect(ts, c).value];
      assert JumpsBounded(prefix + analyze(line, |prefix|).emitted);
    } else {
      assert prefix + [] == prefix;
    }
  }

  function AddMatch(matches: seq<MatchCaseData>, parsed: Option<MatchCaseData>): seq<MatchCaseData> {
    if parsed.Some? then matches + [parsed.value] else matches
  }

  /** What the loop does at a position `c` with buffer length `l`. */
  type Stepper = (nat, nat) -> StatementStep

  /** A step function that, within `n` positions, only moves forward and stays within them. */
  ghost predicate Progresses(step: Stepper, n: nat) {
    forall c: nat, l: nat :: c < n && step(c, l).Next? ==> c < step(c, l).index <= n
  }

  /**
   * The loop `while True: if i == n: break; ...` over `n` positions, at position `c`, with
   * buffer length `l`, the code emitted so far and the matches parsed so far.
   */
  function LoopFrom(n: nat, c: nat, step: Stepper, l: nat, done: seq<Instruction>, matches: seq<MatchCaseData>)
    : ProgramRun
    requires c <= n && Progresses(step, n)
    decreases n - c
  {
    if c == n then ProgramRun(Pass, done, matches)
    else match step(c, l)
      case Halt(e, code) => ProgramRun(Fail(e), done + code, matches)
      case Next(k, code, p) => LoopFrom(n, k, step, l + |code|, done + code, AddMatch(matches, p))
  }

  /** Two step functions that agree within the positions run the same loop. */
  lemma {:induction false} LoopFromAgrees(n: nat, c: nat, s: Stepper, t: Stepper, l: nat,
                                          done: seq<Instruction>, matches: seq<MatchCaseData>)
    requires c <= n && Progresses(s, n) && Progresses(t, n)
    requires forall c: nat, l: nat :: c < n ==> s(c, l) == t(c, l)
    ensures LoopFrom(n, c, s, l, done, matches) == LoopFrom(n, c, t, l, done, matches)
    decreases n - c
  {
    if c < n && s(c, l).Next? {
      var k := s(c, l);
      LoopFromAgrees(n, k.index, s, t, l + |k.code|, done + k.code, AddMatch(matches, k.parsed));
    }
  }

  /** The statement at each position of `ts`. */
  function StepperOf(ts: seq<Token>, analyze: Analysis, parse: MatchParser): (r: Stepper)
    requires Advances(parse)
    ensures Progresses(r, |ts|)
  {
    (c: nat, l: nat) => if c < |ts| then StatementAt(ts, c, analyze, parse, l) else Halt(IndexOutOfRange, [])
  }

  /** `step` is the statement of `ts` at each of its positions. */
  ghost predicate StepsOf(step: Stepper, ts: seq<Token>, analyze: Analysis, parse: MatchParser) {
    Advances(parse) && Progresses(step, |ts|) &&
    forall c: nat, l: nat {:trigger StatementAt(ts, c, analyze, parse, l)} ::
      c < |ts| ==> step(c, l) == StatementAt(ts, c, analyze, parse, l)
  }

  /** There is a step function that is the statement of `ts` at each position. */
  lemma StepsExist(ts: seq<Token>, analyze: Analysis, parse: MatchParser)
    requires Advances(parse)
    ensures exists step :: StepsOf(step, ts, analyze, parse)
  {
    assert StepsOf(StepperOf(ts, analyze, parse), ts, analyze, parse);
  }

  /**
   * The statement loop of `analyze` at position `c`, with buffer length `l`, the code
   * emitted so far and the matches parsed so far.
   */
  function StatementsFrom(ts: seq<Token>, c: nat, analyze: Analysis, parse: MatchParser, l: nat,
                          done: seq<Instruction>, matches: seq<MatchCaseData>): ProgramRun
    requires c <= |ts| && Advances(parse)
  {
    LoopFrom(|ts|, c, StepperOf(ts, analyze, parse), l, done, matches)
  }

  /** The statement loop of any step function that is the statement of `ts` at each position. */
  lemma StatementsFromSteps(step: Stepper, ts: seq<Token>, c: nat, analyze: Analysis, parse: MatchParser, l: nat,
                            done: seq<Instruction>, matches: seq<MatchCaseData>)
    requires c <= |ts| && StepsOf(step, ts, analyze, parse)
    ensures StatementsFrom(ts, c, analyze, parse, l, done, matches) == LoopFrom(|ts|, c, step, l, done, matches)
  {
    var t := StepperOf(ts, analyze, parse);
    forall c': nat, l': nat | c' < |ts|
      ensures step(c', l') == t(c', l')
    {
      assert step(c', l') == StatementAt(ts, c', analyze, parse, l');
    }
    LoopFromAgrees(|ts|, c, step, t, l, done, matches);
  }

  /** A statement that lets the loop go on hands the rest of the tokens to the loop. */
  lemma StatementsFromNext(ts: seq<Token>, c: nat, analyze: Analysis, parse: MatchParser, l: nat,
                           done: seq<Instruction>, matches: seq<MatchCaseData>)
    requires c < |ts| && Advances(parse) && StatementAt(ts, c, analyze, parse, l).Next?
    ensures var step := StatementAt(ts, c, analyze, parse, l);
      StatementsFrom(ts, c, analyze, parse, l, done, matches)
        == StatementsFrom(ts, step.index, analyze, parse, l + |step.code|, done + step.code, AddMatch(matches, step.parsed))
  {
  }

  /** A statement that fails ends the loop, with its code emitted. */
  lemma StatementsFromHalt(ts: seq<Token>, c: nat, analyze: Analysis, parse: MatchParser, l: nat,
                           done: seq<Instruction>, matches: seq<MatchCaseData>)
    requires c < |ts| && Advances(parse) && StatementAt(ts, c, analyze, parse, l).Halt?
    ensures var step := StatementAt(ts, c, analyze, parse, l);
      StatementsFrom(ts, c, analyze, parse, l, done, matches) == ProgramRun(Fail(step.error), done + step.code, matches)
  {
  }

  /** The statements keep every jump target at most the buffer length. */
  lemma {:induction false} StatementsKeepJumpsBounded(
    prefix: seq<Instruction>, ts: seq<Token>, c: nat, analyze: Analysis, parse: MatchParser, l: nat,
    done: seq<Instruction>, matches: seq<MatchCaseData>)
    requires c <= |ts| && Advances(parse) && l == |prefix + done|
    requires JumpsBounded(prefix + done) && KeepsJumpsBounded(analyze)
    ensures JumpsBounded(prefix + StatementsFrom(ts, c, analyze, parse, l, done, matches).emitted)
    decreases |ts| - c, 2
  {
    if c < |ts| {
      var step := StatementAt(ts, c, analyze, parse, l);
      StatementKeepsJumpsBounded(prefix + done, ts, c, analyze, parse);
      if step.Next? {
        NextStatementKeepsJumpsBounded(prefix, ts, c, analyze, parse, l, done, matches);
      } else {
        AppendAssoc(prefix, done, step.code);
        StatementsFromHalt(ts, c, analyze, parse, l, done, matches);
      }
    }
  }

  /** The step of the induction above for a statement that lets the loop go on. */
  lemma {:induction false} NextStatementKeepsJumpsBounded(
    prefix: seq<Instruction>, ts: seq<Token>, c: nat, analyze: Analysis, parse: MatchParser, l: nat,
    done: seq<Instruction>, matches: seq<MatchCaseData>)
    requires c < |ts| && Advances(parse) && l == |prefix + done| && StatementAt(ts, c, analyze, parse, l).Next?
    requires JumpsBounded(prefix + done + StatementAt(ts, c, analyze, parse, l).code)
    requires KeepsJumpsBounded(analyze)
    ensures JumpsBounded(prefix + StatementsFrom(ts, c, analyze, parse, l, done, matches).emitted)
    decreases |ts| - c, 1
  {
    var step := StatementAt(ts, c, analyze, parse, l);
    StatementsFromNext(ts, c, analyze, parse, l, done, matches);
    JumpsBoundedAfterStep(prefix, ts, c, analyze, parse, l, done, matches, step.index, step.code, step.parsed);
  }

  /** The same step, with the statement's length, code and parsed match as plain values. */
  lemma {:induction false} JumpsBoundedAfterStep(
    prefix: seq<Instruction>, ts: seq<Token>, c: nat, analyze: Analysis, parse: MatchParser, l: nat,
    done: seq<Instruction>, matches: seq<MatchCaseData>, k: nat, code: seq<Instruction>, parsed: Option<MatchCaseData>)
    requires c < k <= |ts| && Advances(parse) && l == |prefix + done|
    requires JumpsBounded(prefix + done + code) && KeepsJumpsBounded(analyze)
    requires StatementsFrom(ts, c, analyze, parse, l, done, matches)
      == StatementsFrom(ts, k, analyze, parse, l + |code|, done + code, AddMatch(matches, parsed))
    ensures JumpsBounded(prefix + StatementsFrom(ts, c, analyze, parse, l, done, matches).emitted)
    decreases |ts| - c, 0
  {
    AppendAssoc(prefix, done, code);
    StatementsKeepJumpsBounded(prefix, ts, k, analyze, parse, l + |code|, done + code, AddMatch(matches, parsed));
  }

  predicate AllWellFormed(matches: seq<MatchCaseData>) {
    forall k :: 0 <= k < |matches| ==> WellFormedMatch(matches[k])
  }

  lemma AddMatchKeepsWellFormed(matches: seq<MatchCaseData>, parsed: Option<MatchCaseData>)
    requires AllWellFormed(matches) && (parsed.Some? ==> WellFormedMatch(parsed.value))
    ensures AllWellFormed(AddMatch(matches, parsed))
  {
  }

  /** Every match the statements parse is well formed. */
  lemma {:induction false} StatementsParseWellFormedMatches(
    ts: seq<Token>, c: nat, analyze: Analysis, parse: MatchParser, l: nat, done: seq<Instruction>, matches: seq<MatchCaseData>)
    requires c <= |ts| && Advances(parse) && ParsesWellFormed(parse) && AllWellFormed(matches)
    ensures AllWellFormed(StatementsFrom(ts, c, analyze, parse, l, done, matches).matches)
    decreases |ts| - c, 2
  {
    if c < |ts| {
      if StatementAt(ts, c, analyze, parse, l).Next? {
        NextStatementParsesWellFormedMatches(ts, c, analyze, parse, l, done, matches);
      } else {
        StatementsFromHalt(ts, c, analyze, parse, l, done, matches);
      }
    }
  }

  /** The step of the induction above for a statement that lets the loop go on. */
  lemma {:induction false} NextStatementParsesWellFormedMatches(
    ts: seq<Token>, c: nat, analyze: Analysis, parse: MatchParser, l: nat, done: seq<Instruction>, matches: seq<MatchCaseData>)
    requires c < |ts| && Advances(parse) && ParsesWellFormed(parse) && AllWellFormed(matches)
    requires StatementAt(ts, c, analyze, parse, l).Next?
    ensures AllWellFormed(StatementsFrom(ts, c, analyze, parse, l, done, matches).matches)
    decreases |ts| - c, 1
  {
    var step := StatementAt(ts, c, analyze, parse, l);
    StatementAtParsesWellFormed(ts, c, analyze, parse, l);
    AddMatchKeepsWellFormed(matches, step.parsed);
    StatementsFromNext(ts, c, analyze, parse, l, done, matches);
    WellFormedMatchesAfterStep(ts, c, analyze, parse, l, done, matches, step.index, step.code, step.parsed);
  }

  /** The same step, with the statement's length, code and parsed match as plain values. */
  lemma {:induction false} WellFormedMatchesAfterStep(
    ts: seq<Token>, c: nat, analyze: Analysis, parse: MatchParser, l: nat, done: seq<Instruction>, matches: seq<MatchCaseData>,
    k: nat, code: seq<Instruction>, parsed: Option<MatchCaseData>)
    requires c < k <= |ts| && Advances(parse) && ParsesWellFormed(parse) && AllWellFormed(AddMatch(matches, parsed))
    requires StatementsFrom(ts, c, analyze, parse, l, done, matches)
      == StatementsFrom(ts, k, analyze, parse, l + |code|, done + code, AddMatch(matches, parsed))
    ensures AllWellFormed(StatementsFrom(ts, c, analyze, parse, l, done, matches).matches)
    decreases |ts| - c, 0
  {
    StatementsParseWellFormedMatches(ts, k, analyze, parse, l + |code|, done + code, AddMatch(matches, parsed));
  }
}
