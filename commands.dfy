/**
 * syntactical_analysis/commands.py: the three instruction records the operation handlers
 * emit, their one-line text form, and the append-only buffer they are collected in.
 */
module Commands {
  import opened Wrappers
  import opened Text

  /**
   * AssignmentCommand, ConditionCommand and GotoCommand. A jump index is an absolute
   * position in the buffer; `None` is the placeholder a later pass may overwrite.
   */
  datatype Instruction =
    | Assign(target: string, source: string)
    | Condition(cond: string, gotoIndex: Option<nat>)
    | Goto(nextIndex: Option<nat>)

  /** The text Python's f-string gives a jump index: the number, or `None`. */
  function JumpText(k: Option<nat>): (s: string)
    ensures |s| > 0 && ' ' !in s
  {
    match k
    case None => "None"
    case Some(n) => NatToString(n)
  }

  /** `__str__` of each command class. */
  function Render(c: Instruction): string {
    match c
    case Assign(target, source) => target + " = " + source
    case Condition(cond, k) => "if " + cond + " goto " + JumpText(k)
    case Goto(k) => "goto " + JumpText(k)
  }

  // ---------------------------------------------------------------------------------
  // Reading a listing line back: the inverse of Render.

  function FirstIndexOf(s: string, c: char): (r: int)
    ensures -1 <= r < |s|
    ensures r == -1 ==> c !in s
    ensures r >= 0 ==> s[r] == c && c !in s[..r]
    decreases |s|
  {
    if |s| == 0 then -1
    else if s[0] == c then 0
    else
      var k := FirstIndexOf(s[1..], c);
      if k == -1 then -1
      else
        assert s[..k + 1] == [s[0]] + s[1..][..k];
        k + 1
  }

  function LastIndexOf(s: string, c: char): (r: int)
    ensures -1 <= r < |s|
    ensures r == -1 ==> c !in s
    ensures r >= 0 ==> s[r] == c && c !in s[r + 1..]
    decreases |s|
  {
    if |s| == 0 then -1
    else if s[|s| - 1] == c then |s| - 1
    else
      var k := LastIndexOf(s[..|s| - 1], c);
      if k == -1 then -1
      else
        assert s[k + 1..] == s[..|s| - 1][k + 1..] + [s[|s| - 1]];
        k
  }

  function ParseJump(s: string): Option<Option<nat>> {
    if s == "None" then Some(None)
    else if |s| > 0 && AllDigits(s) then Some(Some(StringToNat(s)))
    else None
  }

  /** The instruction a listing line shows, if it has the shape of one. */
  function ParseInstruction(line: string): Option<Instruction> {
    if |line| >= 5 && line[..5] == "goto " then
      match ParseJump(line[5..])
      case Some(k) => Some(Goto(k))
      case None => None
    else if |line| >= 3 && line[..3] == "if " then
      var sp := LastIndexOf(line, ' ');
      if sp >= 8 && line[sp - 5..sp] == " goto" then
        match ParseJump(line[sp + 1..])
        case Some(k) => Some(Condition(line[3..sp - 5], k))
        case None => None
      else None
    else
      var sp := FirstIndexOf(line, ' ');
      if sp > 0 && sp + 3 <= |line| && line[sp..sp + 3] == " = " then
        Some(Assign(line[..sp], line[sp + 3..]))
      else None
  }

  /** An assignment target that cannot be mistaken for the start of a jump line. */
  predicate PlainTarget(t: string) {
    |t| > 0 && ' ' !in t && t != "if" && t != "goto"
  }

  lemma LastIndexOfIs(s: string, c: char, p: nat)
    requires p < |s| && s[p] == c && c !in s[p + 1..]
    ensures LastIndexOf(s, c) == p
  {
  }

  lemma FirstIndexOfIs(s: string, c: char, p: nat)
    requires p < |s| && s[p] == c && c !in s[..p]
    ensures FirstIndexOf(s, c) == p
  {
  }

  lemma ParseJumpText(k: Option<nat>)
    ensures ParseJump(JumpText(k)) == Some(k)
  {
    if k.Some? {
      var s := NatToString(k.value);
      assert IsDigit(s[0]);
      assert s != "None";
      NatToStringRoundTrip(k.value);
    }
  }

  lemma GotoRoundTrip(k: Option<nat>)
    ensures ParseInstruction(Render(Goto(k))) == Some(Goto(k))
  {
    var line := Render(Goto(k));
    assert line[..5] == "goto ";
    assert line[5..] == JumpText(k);
    ParseJumpText(k);
  }

  /** Where the parts of a rendered condition sit in its line. */
  lemma ConditionLineParts(cond: string, k: Option<nat>)
    ensures var line, sp := Render(Condition(cond, k)), 8 + |cond|;
      sp < |line| && line[..3] == "if " && line[..5] != "goto "
      && line[sp] == ' ' && line[sp + 1..] == JumpText(k)
      && line[sp - 5..sp] == " goto" && line[3..sp - 5] == cond
  {
    var line := Render(Condition(cond, k));
    assert line[..5] != "goto " by { assert line[0] == 'i'; }
    assert line[..3] == "if ";
    var sp := 8 + |cond|;
    assert line[sp] == ' ';
    assert line[sp + 1..] == JumpText(k);
    assert line[sp - 5..sp] == " goto";
    assert line[3..sp - 5] == cond;
  }

  lemma ConditionRoundTrip(cond: string, k: Option<nat>)
    ensures ParseInstruction(Render(Condition(cond, k))) == Some(Condition(cond, k))
  {
    var line := Render(Condition(cond, k));
    ConditionLineParts(cond, k);
    LastIndexOfIs(line, ' ', 8 + |cond|);
    ParseJumpText(k);
  }

  lemma NotAJumpLine(t: string, rest: string)
    requires PlainTarget(t)
    ensures var line := t + rest;
      |rest| > 0 && rest[0] == ' ' ==>
        !(|line| >= 5 && line[..5] == "goto ") && !(|line| >= 3 && line[..3] == "if ")
  {
    var line := t + rest;
    if |rest| > 0 && rest[0] == ' ' {
      assert line[|t|] == ' ';
      assert line[..|t|] == t;
      if |t| >= 5 {
        assert t[4] in t;
        assert line[4] != ' ';
      }
      if |t| >= 3 {
        assert t[2] in t;
        assert line[2] != ' ';
      }
    }
  }

  lemma AssignRoundTrip(t: string, source: string)
    requires PlainTarget(t)
    ensures ParseInstruction(Render(Assign(t, source))) == Some(Assign(t, source))
  {
    var line := Render(Assign(t, source));
    assert line == t + (" = " + source);
    NotAJumpLine(t, " = " + source);
    assert line[..|t|] == t;
    FirstIndexOfIs(line, ' ', |t|);
    assert line[|t|..|t| + 3] == " = ";
    assert line[|t| + 3..] == source;
  }

  /** Reading a rendered instruction back gives the instruction (the listing is lossless). */
  lemma RenderRoundTrip(c: Instruction)
    requires c.Assign? ==> PlainTarget(c.target)
    ensures ParseInstruction(Render(c)) == Some(c)
  {
    match c
    case Goto(k) => GotoRoundTrip(k);
    case Condition(cond, k) => ConditionRoundTrip(cond, k);
    case Assign(t, source) => AssignRoundTrip(t, source);
  }

  // ---------------------------------------------------------------------------------
  // Jump targets.

  /** The jump index of `c`, where there is one, is at most `n`. */
  predicate JumpWithin(c: Instruction, n: nat) {
    match c
    case Assign(_, _) => true
    case Condition(_, k) => k.None? || k.value <= n
    case Goto(k) => k.None? || k.value <= n
  }

  /** No jump in the buffer points past its end (the position after the last one is allowed). */
  predicate JumpsBounded(cmds: seq<Instruction>) {
    forall j :: 0 <= j < |cmds| ==> JumpWithin(cmds[j], |cmds|)
  }

  lemma AppendKeepsJumpsBounded(s: seq<Instruction>, p: seq<Instruction>)
    requires JumpsBounded(s)
    requires forall j :: 0 <= j < |p| ==> JumpWithin(p[j], |s| + |p|)
    ensures JumpsBounded(s + p)
  {
    forall j | 0 <= j < |s + p|
      ensures JumpWithin((s + p)[j], |s + p|)
    {
      if j < |s| {
        assert JumpWithin(s[j], |s|);
      } else {
        assert (s + p)[j] == p[j - |s|];
      }
    }
  }

  /** Appending code in two steps is appending it at once. */
  lemma AppendAssoc(a: seq<Instruction>, b: seq<Instruction>, c: seq<Instruction>)
    ensures (a + b) + c == a + (b + c)
  {
  }

  /** The module-level `commands` list of commands.py, and the `create` class methods. */
  class CommandBuffer {
    var commands: seq<Instruction>

    /** The buffer starts empty. */
    constructor ()
      ensures commands == []
    {
      commands := [];
    }

    method CreateAssign(target: string, source: string)
      modifies this
      ensures commands == old(commands) + [Assign(target, source)]
    {
      commands := commands + [Assign(target, source)];
    }

    method CreateCondition(cond: string, gotoIndex: Option<nat>)
      modifies this
      ensures commands == old(commands) + [Condition(cond, gotoIndex)]
    {
      commands := commands + [Condition(cond, gotoIndex)];
    }

    method CreateGoto(nextIndex: Option<nat>)
      modifies this
      ensures commands == old(commands) + [Goto(nextIndex)]
    {
      commands := commands + [Goto(nextIndex)];
    }
  }
}
