/**
 * syntactical_analysis/expression_analyzer.py: checks one assignment statement and
 * expands every `not x` of its right part into three-address code. The checks are, in
 * order: exactly one `=` and something after it; comparison, boolean and `True`/`False`
 * tokens only when the target is `bool`; at most one kind of comparison; and every `not`
 * applied to a boolean operand.
 */
module ExpressionAnalysis {
  import opened Wrappers
  import opened Errors
  import opened Tokens
  import opened Operands
  import opened Commands
  import opened Handlers
  import opened Folding
  import Utils

  // ---------------------------------------------------------------------------------
  // Operand attributes.

  /**
   * The `.type` of a list element: identifier paths and temp vars carry one, and so do
   * numeric constants; any other token has no such attribute.
   */
  function TypeOf(it: Item): (r: Result<Option<string>>)
    ensures r == Ok(Some(BOOL)) ==> it.Info? || it.Temp?
    ensures it.Info? ==> r == Ok(it.typ)
    ensures it.Temp? ==> r == Ok(Some(it.temp.typ))
  {
    match it
    case Info(_, typ) => Ok(typ)
    case Temp(tv) => Ok(Some(tv.typ))
    case Tok(t) => if t.DigitalConst? then Ok(Some(ConstType(t))) else Err(NoTypeAttribute)
  }

  /** The `.name` of an identifier path or a temp var. */
  function ItemName(it: Item): string
    requires it.Info? || it.Temp?
  {
    if it.Info? then it.fullName else it.temp.name
  }

  // ---------------------------------------------------------------------------------
  // Check 1 and check 2 of `analyze_right_part`.

  function B2I(b: bool): nat {
    if b then 1 else 0
  }

  /** The `relation_count` sum: how many of the six comparison kinds occur, each counted once. */
  function RelationKinds(s: seq<Item>): (n: nat)
    ensures n <= 6
  {
    B2I(Tok(Equal) in s) + B2I(Tok(NotEqual) in s) + B2I(Tok(Less) in s)
    + B2I(Tok(LessEqual) in s) + B2I(Tok(More) in s) + B2I(Tok(MoreEqual) in s)
  }

  /** Tokens only a `bool` target may be assigned from. */
  predicate BoolOnly(t: Token) {
    IsRelational(t) || t == And || t == Or || t == Not || t == TrueLit || t == FalseLit
  }

  /** Some token of `s` is one a `bool` target alone may be assigned from. */
  ghost predicate HasBoolOnly(s: seq<Item>) {
    exists k :: BoolOnly(k) && Tok(k) in s
  }

  /** Two different comparison kinds occur in `s`. */
  ghost predicate TwoComparisons(s: seq<Item>) {
    exists a, b :: IsRelational(a) && IsRelational(b) && a != b && Tok(a) in s && Tok(b) in s
  }

  /** Some comparison occurs exactly when the sum is positive. */
  lemma RelationKindsPositive(s: seq<Item>)
    ensures RelationKinds(s) > 0 <==> exists k :: IsRelational(k) && Tok(k) in s
  {
    if RelationKinds(s) > 0 {
      var k := if Tok(Equal) in s then Equal else if Tok(NotEqual) in s then NotEqual
        else if Tok(Less) in s then Less else if Tok(LessEqual) in s then LessEqual
        else if Tok(More) in s then More else MoreEqual;
      assert IsRelational(k) && Tok(k) in s;
    }
  }

  /** Two different comparisons present make the sum exceed one. */
  lemma TwoComparisonsCount(s: seq<Item>, a: Token, b: Token)
    requires IsRelational(a) && IsRelational(b) && a != b && Tok(a) in s && Tok(b) in s
    ensures RelationKinds(s) > 1
  {
    var rest := RelationKinds(s) - B2I(Tok(a) in s);
    if a == Equal {
      assert B2I(Tok(b) in s) == 1;
    } else if a == NotEqual {
      assert B2I(Tok(b) in s) == 1;
    } else if a == Less {
      assert B2I(Tok(b) in s) == 1;
    } else if a == LessEqual {
      assert B2I(Tok(b) in s) == 1;
    } else if a == More {
      assert B2I(Tok(b) in s) == 1;
    } else {
      assert B2I(Tok(b) in s) == 1;
    }
  }

  /** The sum exceeds one exactly when two different comparisons occur, however often each. */
  lemma RelationKindsAboveOne(s: seq<Item>)
    ensures RelationKinds(s) > 1 <==> TwoComparisons(s)
  {
    if RelationKinds(s) > 1 {
      var a := if Tok(Equal) in s then Equal else if Tok(NotEqual) in s then NotEqual
        else if Tok(Less) in s then Less else if Tok(LessEqual) in s then LessEqual
        else if Tok(More) in s then More else MoreEqual;
      var b := if Tok(MoreEqual) in s then MoreEqual else if Tok(More) in s then More
        else if Tok(LessEqual) in s then LessEqual else if Tok(Less) in s then Less
        else if Tok(NotEqual) in s then NotEqual else Equal;
      assert IsRelational(a) && IsRelational(b) && a != b && Tok(a) in s && Tok(b) in s;
    }
    if TwoComparisons(s) {
      var a, b :| IsRelational(a) && IsRelational(b) && a != b && Tok(a) in s && Tok(b) in s;
      TwoComparisonsCount(s, a, b);
    }
  }

  /** A comparison repeated adds nothing to the count. */
  lemma RelationKindsIgnoreRepeats(s: seq<Item>, k: Token)
    requires IsRelational(k) && Tok(k) in s
    ensures RelationKinds(s + [Tok(k)]) == RelationKinds(s)
  {
    forall x | x in s + [Tok(k)]
      ensures x in s
    {
    }
  }

  /** The `contains_logical_operators` and `contains_true_false` flags. */
  function LogicalOrLiteral(s: seq<Item>): bool {
    Tok(And) in s || Tok(Or) in s || Tok(Not) in s || Tok(TrueLit) in s || Tok(FalseLit) in s
  }

  lemma HasBoolOnlyIff(s: seq<Item>)
    ensures HasBoolOnly(s) <==> RelationKinds(s) > 0 || LogicalOrLiteral(s)
  {
    RelationKindsPositive(s);
    if HasBoolOnly(s) {
      var k :| BoolOnly(k) && Tok(k) in s;
      if !IsRelational(k) {
        assert LogicalOrLiteral(s);
      }
    }
    if LogicalOrLiteral(s) {
      var k := if Tok(And) in s then And else if Tok(Or) in s then Or
        else if Tok(Not) in s then Not else if Tok(TrueLit) in s then TrueLit else FalseLit;
      assert BoolOnly(k) && Tok(k) in s;
    }
  }

  /** Check 1 and check 2 of `analyze_right_part`, which run before any code is emitted. */
  function GateCheck(s: seq<Item>, t: Option<string>): (r: Outcome)
    ensures r == Pass || r == Fail(TypeIncompatibility) || r == Fail(Errors.RelationCount)
  {
    if (RelationKinds(s) > 0 || LogicalOrLiteral(s)) && t != Some(BOOL) then Fail(TypeIncompatibility)
    else if RelationKinds(s) > 1 then Fail(Errors.RelationCount)
    else Pass
  }

  /**
   * The checks reject exactly a non-`bool` target assigned from a comparison, a boolean
   * operator or a boolean literal, and then two different kinds of comparison.
   */
  lemma GateCheckMeaning(s: seq<Item>, t: Option<string>)
    ensures GateCheck(s, t) == Fail(TypeIncompatibility) <==> t != Some(BOOL) && HasBoolOnly(s)
    ensures GateCheck(s, t) == Fail(Errors.RelationCount) <==>
      !(t != Some(BOOL) && HasBoolOnly(s)) && TwoComparisons(s)
    ensures GateCheck(s, t) == Pass <==>
      (t == Some(BOOL) || !HasBoolOnly(s)) && !TwoComparisons(s)
  {
    HasBoolOnlyIff(s);
    RelationKindsAboveOne(s);
  }

  // ---------------------------------------------------------------------------------
  // The `while NOT_TOKEN in tokens` loop.

  /** What a run of the loop yields: its outcome, the list it leaves and the code it emits. */
  datatype NotRun = NotRun(outcome: Outcome, rest: seq<Item>, emitted: seq<Instruction>)

  /** `tokens[0:k] + [temp_var] + tokens[k + 2:]`. */
  function Replace(s: seq<Item>, k: nat, tv: TempVar): seq<Item>
    requires k + 1 < |s|
  {
    s[..k] + [Temp(tv)] + s[k + 2..]
  }

  lemma ReplaceDropsOneNot(s: seq<Item>, k: nat, tv: TempVar)
    requires k + 1 < |s| && s[k] == Tok(Not) && s[k + 1] != Tok(Not)
    ensures Count(Replace(s, k, tv), Tok(Not)) == Count(s, Tok(Not)) - 1
    ensures |Replace(s, k, tv)| == |s| - 1
  {
    assert s == s[..k] + [s[k], s[k + 1]] + s[k + 2..];
    CountAppend(s[..k] + [s[k], s[k + 1]], s[k + 2..], Tok(Not));
    CountAppend(s[..k], [s[k], s[k + 1]], Tok(Not));
    CountAppend(s[..k] + [Temp(tv)], s[k + 2..], Tok(Not));
    CountAppend(s[..k], [Temp(tv)], Tok(Not));
    assert [s[k], s[k + 1]][..1] == [s[k]];
  }

  /** One pass of the loop body: where it stops, or the list and the code it leaves. */
  datatype NotStepResult = Stop(error: Error) | Step(next: seq<Item>, code: seq<Instruction>)

  /**
   * The loop body: the first `not` and its operand, which must be a boolean, are replaced
   * by the temp var `alloc(l)` whose NOT pattern is emitted; `l` is the buffer length.
   */
  function NotStep(s: seq<Item>, l: nat, alloc: nat -> string): (r: NotStepResult)
    requires Tok(Not) in s
    ensures r.Step? ==> |r.next| == |s| - 1 && |r.code| == 3
  {
    var k := IndexOf(s, Tok(Not));
    if k + 1 >= |s| then Stop(IndexOutOfRange)
    else
      var operand := s[k + 1];
      match TypeOf(operand)
      case Err(e) => Stop(e)
      case Ok(t) =>
        if t != Some(BOOL) then Stop(WrongTypeForOperator)
        else
          var tv := TempVar(alloc(l), BOOL);
          Step(Replace(s, k, tv), NotPattern(l, tv.name, ItemName(operand)))
  }

  /** A pass that succeeds removes exactly one `not`. */
  lemma NotStepDropsOneNot(s: seq<Item>, l: nat, alloc: nat -> string)
    requires Tok(Not) in s && NotStep(s, l, alloc).Step?
    ensures Count(NotStep(s, l, alloc).next, Tok(Not)) == Count(s, Tok(Not)) - 1
  {
    var k := IndexOf(s, Tok(Not));
    ReplaceDropsOneNot(s, k, TempVar(alloc(l), BOOL));
  }

  /**
   * A pass that succeeds found a boolean operand right after the first `not`; it emits
   * the NOT pattern that tests that operand into the temp var `alloc(l)`, and puts that
   * temp var where the `not` and its operand were.
   */
  lemma NotStepEmitsPattern(s: seq<Item>, l: nat, alloc: nat -> string)
    requires Tok(Not) in s && NotStep(s, l, alloc).Step?
    ensures var c := NotStep(s, l, alloc).code;
      c[1].Condition? && c == NotPattern(l, alloc(l), c[1].cond)
    ensures var k := IndexOf(s, Tok(Not));
      k + 1 < |s| && (s[k + 1].Info? || s[k + 1].Temp?) && TypeOf(s[k + 1]) == Ok(Some(BOOL)) &&
      NotStep(s, l, alloc).code == NotPattern(l, alloc(l), ItemName(s[k + 1])) &&
      NotStep(s, l, alloc).next == s[..k] + [Temp(TempVar(alloc(l), BOOL))] + s[k + 2..]
  {
    var k := IndexOf(s, Tok(Not));
    var tv := TempVar(alloc(l), BOOL);
    assert k + 1 < |s| && TypeOf(s[k + 1]) == Ok(Some(BOOL));
    assert NotStep(s, l, alloc) == Step(Replace(s, k, tv), NotPattern(l, tv.name, ItemName(s[k + 1])));
  }

  /** The operand of the first `not` must be a boolean: any other type stops the loop. */
  lemma NotStepRejectsNonBool(s: seq<Item>, l: nat, alloc: nat -> string)
    requires Tok(Not) in s
    requires var k := IndexOf(s, Tok(Not));
      k + 1 < |s| && TypeOf(s[k + 1]).Ok? && TypeOf(s[k + 1]).value != Some(BOOL)
    ensures NotStep(s, l, alloc) == Stop(WrongTypeForOperator)
  {
  }

  /** A `not` with nothing after it reads past the end of the list. */
  lemma NotStepRejectsTrailingNot(s: seq<Item>, l: nat, alloc: nat -> string)
    requires Tok(Not) in s && IndexOf(s, Tok(Not)) == |s| - 1
    ensures NotStep(s, l, alloc) == Stop(IndexOutOfRange)
  {
  }

  /**
   * The loop: the body runs while a `not` is left, and stops at the first failure;
   * `done` is the code emitted by the passes before.
   */
  function NotReduce(s: seq<Item>, l: nat, alloc: nat -> string, done: seq<Instruction>): NotRun
    decreases |s|
  {
    if Tok(Not) !in s then NotRun(Pass, s, done)
    else
      match NotStep(s, l, alloc)
      case Stop(e) => NotRun(Fail(e), s, done)
      case Step(n, c) => NotReduce(n, l + 3, alloc, done + c)
  }

  /** A run whose next pass succeeds continues from the list and code that pass leaves. */
  lemma NotReduceSteps(s: seq<Item>, l: nat, alloc: nat -> string, done: seq<Instruction>)
    requires Tok(Not) in s && NotStep(s, l, alloc).Step?
    ensures NotReduce(s, l, alloc, done) ==
      NotReduce(NotStep(s, l, alloc).next, l + 3, alloc, done + NotStep(s, l, alloc).code)
  {
  }

  /** A run with no `not` left ends with success. */
  lemma NotReduceDone(s: seq<Item>, l: nat, alloc: nat -> string, done: seq<Instruction>)
    requires Tok(Not) !in s
    ensures NotReduce(s, l, alloc, done) == NotRun(Pass, s, done)
  {
  }

  /** A run whose next pass fails stops there, with the code emitted before it. */
  lemma NotReduceStops(s: seq<Item>, l: nat, alloc: nat -> string, done: seq<Instruction>)
    requires Tok(Not) in s && NotStep(s, l, alloc).Stop?
    ensures NotReduce(s, l, alloc, done) == NotRun(Fail(NotStep(s, l, alloc).error), s, done)
  {
  }

  /** `e` is a run of NOT patterns, one per `not`, each at its own position. */
  predicate NotBlocks(e: seq<Instruction>, l: nat, alloc: nat -> string)
    decreases |e|
  {
    |e| == 0 ||
    (|e| >= 3 && e[1].Condition? && e[..3] == NotPattern(l, alloc(l), e[1].cond)
     && NotBlocks(e[3..], l + 3, alloc))
  }

  /**
   * On success no `not` is left, the list is shorter by one element per `not`, and
   * exactly one NOT pattern per `not` was emitted. Success or not, the code emitted is a
   * run of NOT patterns.
   */
  lemma {:induction false} NotReduceMeaning(s: seq<Item>, l: nat, alloc: nat -> string, done: seq<Instruction>)
    ensures var r := NotReduce(s, l, alloc, done);
      |done| <= |r.emitted| && r.emitted[..|done|] == done &&
      NotBlocks(r.emitted[|done|..], l, alloc) &&
      (r.outcome == Pass ==>
        Tok(Not) !in r.rest && |r.rest| == |s| - Count(s, Tok(Not)) &&
        |r.emitted| == |done| + 3 * Count(s, Tok(Not)))
    decreases |s|
  {
    var r := NotReduce(s, l, alloc, done);
    if Tok(Not) in s {
      var step := NotStep(s, l, alloc);
      if step.Step? {
        var p := step.code;
        NotStepDropsOneNot(s, l, alloc);
        NotStepEmitsPattern(s, l, alloc);
        NotReduceSteps(s, l, alloc, done);
        NotReduceMeaning(step.next, l + 3, alloc, done + p);
        var e := r.emitted[|done|..];
        assert r.emitted[..|done|] == (done + p)[..|done|] == done;
        assert e[..3] == (done + p)[|done|..] == p;
        assert e[3..] == r.emitted[|done + p|..];
        assert NotBlocks(e, l, alloc);
      } else {
        NotReduceStops(s, l, alloc, done);
        assert r.emitted[|done|..] == [];
      }
    } else {
      assert Count(s, Tok(Not)) == 0;
      assert r.emitted[|done|..] == [];
    }
  }

  /**
   * A run of NOT patterns emitted at the end of the buffer keeps every jump target at
   * most the buffer length.
   */
  lemma {:induction false} NotBlocksKeepJumpsBounded(
    prefix: seq<Instruction>, e: seq<Instruction>, alloc: nat -> string)
    requires JumpsBounded(prefix) && NotBlocks(e, |prefix|, alloc)
    ensures JumpsBounded(prefix + e)
    decreases |e|
  {
    if |e| > 0 {
      NotPatternKeepsJumpsBounded(prefix, alloc(|prefix|), e[1].cond);
      var p := prefix + e[..3];
      assert p == prefix + NotPattern(|prefix|, alloc(|prefix|), e[1].cond);
      NotBlocksKeepJumpsBounded(p, e[3..], alloc);
      assert p + e[3..] == prefix + e;
    }
  }

  // ---------------------------------------------------------------------------------
  // `analyze_right_part`, `analyze` and the whole constructor.

  /** `analyze_right_part(type_)` on the list that starts at the `=`. */
  function RightPartSpec(s: seq<Item>, t: Option<string>, l: nat, alloc: nat -> string): NotRun
    requires Tok(Assignment) in s
  {
    var ts := s[IndexOf(s, Tok(Assignment))..];
    var gate := GateCheck(ts, t);
    if gate.Fail? then NotRun(gate, ts, []) else NotReduce(ts, l, alloc, [])
  }

  /** The two checks `analyze` makes before it narrows the list. */
  function AssignmentShape(items: seq<Item>): Outcome {
    if Count(items, Tok(Assignment)) != 1 then Fail(AssignmentExpected)
    else if items[|items| - 1] == Tok(Assignment) then Fail(WrongExpression)
    else Pass
  }

  /** `self.tokens` after `analyze`: from the `=` on, once the shape checks pass. */
  function AnalyzedTokens(items: seq<Item>): seq<Item> {
    if AssignmentShape(items).Fail? then items else items[IndexOf(items, Tok(Assignment))..]
  }

  /** `analyze()`: the target's type is the `.type` of the first element. */
  function AnalyzeSpec(items: seq<Item>, l: nat, alloc: nat -> string): NotRun {
    var shape := AssignmentShape(items);
    if shape.Fail? then NotRun(shape, items, [])
    else
      var right := AnalyzedTokens(items);
      match TypeOf(items[0])
      case Err(e) => NotRun(Fail(e), right, [])
      case Ok(t) => RightPartSpec(right, t, l, alloc)
  }

  /** `ExpressionAnalyzer(tokens)`: fold the paths, then analyze. */
  function ExpressionSpec(ts: seq<Token>, sym: SymbolTable, l: nat, alloc: nat -> string): NotRun {
    match FoldPaths(ts, sym)
    case Err(e) => NotRun(Fail(e), [], [])
    case Ok(items) => AnalyzeSpec(items, l, alloc)
  }

  lemma RightPartStartsAtAssignment(s: seq<Item>)
    requires AssignmentShape(s) == Pass
    ensures var r := AnalyzedTokens(s); |r| > 1 && r[0] == Tok(Assignment) && IndexOf(r, Tok(Assignment)) == 0
  {
  }

  /**
   * A statement that analyzes cleanly has exactly one `=` with something after it; a
   * comparison, a boolean operator or a boolean literal after the `=` means the target is
   * a `bool`; at most one kind of comparison occurs; and the code emitted is one NOT
   * pattern per `not`. Code is emitted only once both checks before it have passed.
   */
  lemma AnalyzeMeaning(items: seq<Item>, l: nat, alloc: nat -> string)
    ensures var r := AnalyzeSpec(items, l, alloc);
      NotBlocks(r.emitted, l, alloc) &&
      (r.emitted != [] ==> AssignmentShape(items) == Pass && TypeOf(items[0]).Ok? && GateCheck(AnalyzedTokens(items), TypeOf(items[0]).value) == Pass) &&
      (r.outcome == Pass ==>
        var right := AnalyzedTokens(items);
        Count(items, Tok(Assignment)) == 1 && items[|items| - 1] != Tok(Assignment) &&
        right[0] == Tok(Assignment) && |right| > 1 &&
        (HasBoolOnly(right) ==> TypeOf(items[0]) == Ok(Some(BOOL))) &&
        !TwoComparisons(right) &&
        Tok(Not) !in r.rest &&
        |r.emitted| == 3 * Count(right, Tok(Not)))
  {
    var r := AnalyzeSpec(items, l, alloc);
    if AssignmentShape(items) == Pass {
      var right := AnalyzedTokens(items);
      RightPartStartsAtAssignment(items);
      assert right[0..] == right;
      if TypeOf(items[0]).Ok? {
        var t := TypeOf(items[0]).value;
        GateCheckMeaning(right, t);
        if GateCheck(right, t) == Pass {
          NotReduceMeaning(right, l, alloc, []);
          assert r.emitted[0..] == r.emitted;
        }
      }
    }
  }

  /** Analysis keeps every jump target at most the buffer length. */
  lemma AnalyzeKeepsJumpsBounded(prefix: seq<Instruction>, items: seq<Item>, alloc: nat -> string)
    requires JumpsBounded(prefix)
    ensures JumpsBounded(prefix + AnalyzeSpec(items, |prefix|, alloc).emitted)
  {
    AnalyzeMeaning(items, |prefix|, alloc);
    NotBlocksKeepJumpsBounded(prefix, AnalyzeSpec(items, |prefix|, alloc).emitted, alloc);
  }

  /** Checking a whole statement keeps every jump target at most the buffer length. */
  lemma ExpressionKeepsJumpsBounded(prefix: seq<Instruction>, ts: seq<Token>, sym: SymbolTable, alloc: nat -> string)
    requires JumpsBounded(prefix)
    ensures JumpsBounded(prefix + ExpressionSpec(ts, sym, |prefix|, alloc).emitted)
  {
    if FoldPaths(ts, sym).Ok? {
      AnalyzeKeepsJumpsBounded(prefix, FoldPaths(ts, sym).value, alloc);
    } else {
      assert prefix + [] == prefix;
    }
  }

  /**
   * One statement's analysis. `tokens` is the list the source keeps in `self.tokens`:
   * raw tokens at first, folded paths after `parse_identifiers`, the part from the `=`
   * on after `analyze`.
   */
  class ExpressionAnalyzer {
    var tokens: seq<Item>

    constructor (ts: seq<Token>)
      ensures tokens == AsItems(ts)
    {
      tokens := AsItems(ts);
    }

    /** `ExpressionAnalyzer(tokens)`: the constructor runs both passes. */
    static method Run(buf: CommandBuffer, alloc: nat -> string, ts: seq<Token>, sym: SymbolTable)
      returns (ea: ExpressionAnalyzer, r: Outcome)
      modifies buf
      ensures r == ExpressionSpec(ts, sym, |old(buf.commands)|, alloc).outcome
      ensures buf.commands == old(buf.commands) + ExpressionSpec(ts, sym, |old(buf.commands)|, alloc).emitted
    {
      ea := new ExpressionAnalyzer(ts);
      r := ea.ParseIdentifiers(ts, sym);
      if r.Fail? {
        return;
      }
      r := ea.Analyze(buf, alloc);
    }

    /**
     * `parse_identifiers`: the list becomes the folded one (the loop is Utils.ParseIdentifiers).
     * `ts` is the token list the constructor was given.
     */
    method ParseIdentifiers(ts: seq<Token>, sym: SymbolTable) returns (r: Outcome)
      requires tokens == AsItems(ts)
      modifies this
      ensures FoldPaths(ts, sym).Err? ==> r == Fail(FoldPaths(ts, sym).error) && tokens == old(tokens)
      ensures FoldPaths(ts, sym).Ok? ==> r == Pass && tokens == FoldPaths(ts, sym).value
    {
      var folded := Utils.ParseIdentifiers(ts, sym);
      if folded.Err? {
        return Fail(folded.error);
      }
      tokens := folded.value;
      r := Pass;
    }

    /** `analyze`. */
    method Analyze(buf: CommandBuffer, alloc: nat -> string) returns (r: Outcome)
      modifies this, buf
      ensures r == AnalyzeSpec(old(tokens), |old(buf.commands)|, alloc).outcome
      ensures buf.commands == old(buf.commands) + AnalyzeSpec(old(tokens), |old(buf.commands)|, alloc).emitted
      ensures tokens == AnalyzedTokens(old(tokens))
    {
      if Count(tokens, Tok(Assignment)) != 1 {
        return Fail(AssignmentExpected);
      }
      if tokens[|tokens| - 1] == Tok(Assignment) {
        return Fail(WrongExpression);
      }
      var assignmentIndex := IndexOf(tokens, Tok(Assignment));
      var leftIdentifier := tokens[0];
      tokens := tokens[assignmentIndex..];
      var t := TypeOf(leftIdentifier);
      if t.Err? {
        return Fail(t.error);
      }
      r := AnalyzeRightPart(buf, alloc, t.value);
    }

    /** `analyze_right_part(type_)`; `self.tokens` is left as it is. */
    method AnalyzeRightPart(buf: CommandBuffer, alloc: nat -> string, t: Option<string>) returns (r: Outcome)
      requires Tok(Assignment) in tokens
      modifies buf
      ensures r == RightPartSpec(tokens, t, |old(buf.commands)|, alloc).outcome
      ensures buf.commands == old(buf.commands) + RightPartSpec(tokens, t, |old(buf.commands)|, alloc).emitted
    {
      var assignmentIndex := IndexOf(tokens, Tok(Assignment));
      var ts := tokens[assignmentIndex..];
      r := GateCheck(ts, t);
      if r.Fail? {
        return;
      }
      r := ReduceNots(buf, alloc, ts);
    }

    /** The `while NOT_TOKEN in tokens` loop over the local list. */
    static method ReduceNots(buf: CommandBuffer, alloc: nat -> string, s: seq<Item>) returns (r: Outcome)
      modifies buf
      ensures r == NotReduce(s, |old(buf.commands)|, alloc, []).outcome
      ensures buf.commands == old(buf.commands) + NotReduce(s, |old(buf.commands)|, alloc, []).emitted
    {
      var ts := s;
      ghost var emitted: seq<Instruction> := [];
      ghost var whole := NotReduce(s, |old(buf.commands)|, alloc, []);
      while Tok(Not) in ts
        invariant buf.commands == old(buf.commands) + emitted
        invariant whole == NotReduce(ts, |buf.commands|, alloc, emitted)
        decreases |ts|
      {
        var body;
        ghost var code;
        body, ts, code := ReduceFirstNot(buf, alloc, ts, whole, emitted);
        if body.Fail? {
          return body;
        }
        AppendAssoc(old(buf.commands), emitted, code);
        emitted := emitted + code;
      }
      NotReduceDone(ts, |buf.commands|, alloc, emitted);
      r := Pass;
    }

    /** One pass of the loop body: it fails, or emits the NOT pattern and narrows the list. */
    static method ReduceFirstNot(buf: CommandBuffer, alloc: nat -> string, ts: seq<Item>,
                                 ghost whole: NotRun, ghost done: seq<Instruction>)
      returns (r: Outcome, next: seq<Item>, ghost code: seq<Instruction>)
      requires Tok(Not) in ts
      requires whole == NotReduce(ts, |buf.commands|, alloc, done)
      modifies buf
      ensures buf.commands == old(buf.commands) + code
      ensures var step := NotStep(ts, |old(buf.commands)|, alloc);
        if step.Stop? then r == Fail(step.error) && code == []
        else r == Pass && next == step.next && code == step.code
      ensures r.Fail? ==> r == whole.outcome && done == whole.emitted
      ensures r.Pass? ==> |next| < |ts|
      ensures r.Pass? ==> whole == NotReduce(next, |buf.commands|, alloc, done + code)
    {
      next, code := ts, [];
      ghost var l := |buf.commands|;
      var notIndex := IndexOf(ts, Tok(Not));
      if notIndex + 1 >= |ts| {
        NotReduceStops(ts, l, alloc, done);
        return Fail(IndexOutOfRange), next, code;
      }
      var identifier := ts[notIndex + 1];
      var typ := TypeOf(identifier);
      if typ.Err? {
        NotReduceStops(ts, l, alloc, done);
        return Fail(typ.error), next, code;
      }
      if typ.value != Some(BOOL) {
        NotReduceStops(ts, l, alloc, done);
        return Fail(WrongTypeForOperator), next, code;
      }
      var tv := HandleNot(buf, alloc, ItemName(identifier));
      code := NotPattern(l, tv.name, ItemName(identifier));
      // The source builds the list in two branches, for a `not` at the end and elsewhere;
      // both give this list.
      next := ts[..notIndex] + [Temp(tv)] + ts[notIndex + 2..];
      NotReduceSteps(ts, l, alloc, done);
      r := Pass;
    }
  }
}
