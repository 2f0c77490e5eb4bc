/**
 * syntactical_analysis/handlers.py: the three-address code emitted for the boolean
 * operators `not` and `and`, and what that code computes when run.
 */
module Handlers {
  import opened Wrappers
  import opened Tokens
  import opened Operands
  import opened Commands

  /**
   * The code NotOperationHandler emits when the buffer holds `l` instructions. The
   * jump index is read after the first instruction is appended, so it is `l + 3`:
   * the position just past the pattern, not the second assignment at `l + 2`.
   */
  function NotPattern(l: nat, t: string, x: string): (p: seq<Instruction>)
    ensures |p| == 3
  {
    [Assign(t, "True"), Condition(x, Some(l + 3)), Assign(t, "False")]
  }

  /** The code AndOperationHandler emits when the buffer holds `l` instructions. */
  function AndPattern(l: nat, t: string, x: string, y: string): (p: seq<Instruction>)
    ensures |p| == 6
  {
    [Assign(t, "True"), Condition(x, Some(l + 4)), Assign(t, "False"),
     Goto(Some(l + 6)), Condition(y, Some(l + 6)), Assign(t, "False")]
  }

  /**
   * `not x`: a boolean temp var, named by the allocator from the buffer length,
   * and the NOT pattern appended to the buffer.
   */
  method HandleNot(buf: CommandBuffer, alloc: nat -> string, x: string) returns (tv: TempVar)
    modifies buf
    ensures tv == TempVar(alloc(|old(buf.commands)|), BOOL)
    ensures buf.commands == old(buf.commands) + NotPattern(|old(buf.commands)|, tv.name, x)
  {
    tv := TempVar(alloc(|buf.commands|), BOOL);
    buf.CreateAssign(tv.name, "True");
    buf.CreateCondition(x, Some(|buf.commands| + 2));
    buf.CreateAssign(tv.name, "False");
  }

  /**
   * `x and y`: a boolean temp var, named by the allocator from the buffer length, and
   * the AND pattern appended to the buffer.
   */
  method HandleAnd(buf: CommandBuffer, alloc: nat -> string, x: string, y: string)
    returns (tv: TempVar)
    modifies buf
    ensures tv == TempVar(alloc(|old(buf.commands)|), BOOL)
    ensures buf.commands == old(buf.commands) + AndPattern(|old(buf.commands)|, tv.name, x, y)
  {
    tv := TempVar(alloc(|buf.commands|), BOOL);
    var n := |buf.commands|;
    buf.CreateAssign(tv.name, "True");
    buf.CreateCondition(x, Some(n + 4));
    buf.CreateAssign(tv.name, "False");
    buf.CreateGoto(Some(n + 6));
    buf.CreateCondition(y, Some(n + 6));
    buf.CreateAssign(tv.name, "False");
  }

  /** Appending the NOT pattern keeps every jump target at most the buffer length. */
  lemma NotPatternKeepsJumpsBounded(s: seq<Instruction>, t: string, x: string)
    requires JumpsBounded(s)
    ensures JumpsBounded(s + NotPattern(|s|, t, x))
  {
    AppendKeepsJumpsBounded(s, NotPattern(|s|, t, x));
  }

  /** Appending the AND pattern keeps every jump target at most the buffer length. */
  lemma AndPatternKeepsJumpsBounded(s: seq<Instruction>, t: string, x: string, y: string)
    requires JumpsBounded(s)
    ensures JumpsBounded(s + AndPattern(|s|, t, x, y))
  {
    AppendKeepsJumpsBounded(s, AndPattern(|s|, t, x, y));
  }

  // ---------------------------------------------------------------------------------
  // What the emitted code computes.

  /**
   * Runs `code`, placed at index `base` of a listing, from index `pc` over boolean
   * variables, for at most `fuel` steps. Leaving the code stops the run, and so does a
   * jump whose index is still `None`. An assignment from `True` sets its target.
   */
  function Run(code: seq<Instruction>, base: nat, pc: nat, env: map<string, bool>, fuel: nat)
    : map<string, bool>
    decreases fuel
  {
    if fuel == 0 || pc < base || pc - base >= |code| then env
    else
      match code[pc - base]
      case Assign(t, src) => Run(code, base, pc + 1, env[t := src == "True"], fuel - 1)
      case Condition(c, k) =>
        if c in env && env[c] then
          (if k.Some? then Run(code, base, k.value, env, fuel - 1) else env)
        else Run(code, base, pc + 1, env, fuel - 1)
      case Goto(k) => if k.Some? then Run(code, base, k.value, env, fuel - 1) else env
  }

  /** The AND pattern leaves `x && y` in its temp var and touches no other variable. */
  lemma {:induction false} AndPatternComputesConjunction(
    l: nat, t: string, x: string, y: string, env: map<string, bool>)
    requires x in env && y in env && t != x && t != y
    ensures var out := Run(AndPattern(l, t, x, y), l, l, env, 6);
      t in out && out[t] == (env[x] && env[y]) &&
      forall v :: v in env && v != t ==> v in out && out[v] == env[v]
  {
    var p := AndPattern(l, t, x, y);
    var e1 := env[t := true];
    assert Run(p, l, l, env, 6) == Run(p, l, l + 1, e1, 5);
    if env[x] {
      assert Run(p, l, l + 1, e1, 5) == Run(p, l, l + 4, e1, 4);
      if env[y] {
        assert Run(p, l, l + 4, e1, 4) == Run(p, l, l + 6, e1, 3) == e1;
      } else {
        assert Run(p, l, l + 4, e1, 4) == Run(p, l, l + 5, e1, 3);
        assert Run(p, l, l + 5, e1, 3) == Run(p, l, l + 6, e1[t := false], 2);
      }
    } else {
      assert Run(p, l, l + 1, e1, 5) == Run(p, l, l + 2, e1, 4);
      assert Run(p, l, l + 2, e1, 4) == Run(p, l, l + 3, e1[t := false], 3);
      assert Run(p, l, l + 3, e1[t := false], 3) == Run(p, l, l + 6, e1[t := false], 2);
    }
  }

  /**
   * The NOT pattern as emitted leaves `x` itself, not its negation, in its temp var:
   * when `x` holds, the jump to `l + 3` skips the assignment of `False`.
   */
  lemma {:induction false} NotPatternCopiesOperand(
    l: nat, t: string, x: string, env: map<string, bool>)
    requires x in env && t != x
    ensures var out := Run(NotPattern(l, t, x), l, l, env, 3);
      t in out && out[t] == env[x] &&
      forall v :: v in env && v != t ==> v in out && out[v] == env[v]
  {
    var p := NotPattern(l, t, x);
    var e1 := env[t := true];
    assert Run(p, l, l, env, 3) == Run(p, l, l + 1, e1, 2);
    if env[x] {
      assert Run(p, l, l + 1, e1, 2) == Run(p, l, l + 3, e1, 1);
    } else {
      assert Run(p, l, l + 1, e1, 2) == Run(p, l, l + 2, e1, 1);
      assert Run(p, l, l + 2, e1, 1) == Run(p, l, l + 3, e1[t := false], 0);
    }
  }
}
