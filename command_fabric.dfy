/**
 * syntactical_analysis/command.py: the four-part command record (name, operands, operator,
 * result type), its text form, and the factory that names commands `$0`, `$1`, ... after
 * their position in its own command list (a list separate from the one in commands.py).
 */
module CommandFabric {
  import opened Wrappers
  import opened Errors
  import opened Tokens
  import opened Text
  import Commands

  /** A Command; absent parts are Python's `None`, and `returnType` is its `type`. */
  datatype Command = Command(
    name: string,
    leftOperand: Option<string>,
    operator: Option<string>,
    rightOperand: Option<string>,
    returnType: Option<string>)

  /** Python truthiness of an optional string: present and non-empty. */
  predicate Truthy(s: Option<string>) {
    s.Some? && s.value != ""
  }

  function PartIf(s: Option<string>): (r: seq<string>)
    ensures Truthy(s) ==> r == [s.value]
    ensures !Truthy(s) ==> r == []
  {
    if Truthy(s) then [s.value] else []
  }

  /** `__str__`: "name =", then each part that is truthy, joined by single spaces. */
  function ToString(c: Command): string {
    Join([c.name + " ="] + PartIf(c.leftOperand) + PartIf(c.operator) + PartIf(c.rightOperand), " ")
  }

  /** The name the next command gets: `$` and the current length of the list. */
  function IndexName(k: nat): string {
    "$" + NatToString(k)
  }

  lemma IndexNameInjective(j: nat, k: nat)
    requires j != k
    ensures IndexName(j) != IndexName(k)
  {
    NatToStringInjective(j, k);
    assert IndexName(j)[1..] == NatToString(j);
    assert IndexName(k)[1..] == NatToString(k);
  }

  /** `create_for_assignment`: `aim = source` with no operator; nothing is appended. */
  function CreateForAssignment(aim: string, source: string): (c: Command)
    ensures c.name == aim && c.leftOperand == Some(source)
    ensures c.operator == None && c.rightOperand == None && c.returnType == None
  {
    Command(aim, Some(source), None, None, None)
  }

  /** An assignment command reads the same as the AssignmentCommand of commands.py. */
  lemma AssignmentTextAgrees(aim: string, source: string)
    requires source != ""
    ensures ToString(CreateForAssignment(aim, source)) == Commands.Render(Commands.Assign(aim, source))
  {
    var c := CreateForAssignment(aim, source);
    var parts := [c.name + " ="] + PartIf(c.leftOperand) + PartIf(c.operator) + PartIf(c.rightOperand);
    assert parts == [aim + " =", source];
    assert parts[1..] == [source];
    assert Join(parts, " ") == aim + " =" + " " + source;
  }

  /** A command with both operands and an operator reads `name = left op right`. */
  lemma TwoOperandText(c: Command)
    requires Truthy(c.leftOperand) && Truthy(c.operator) && Truthy(c.rightOperand)
    ensures ToString(c) == c.name + " = " + c.leftOperand.value + " " + c.operator.value + " " + c.rightOperand.value
  {
    var parts := [c.name + " ="] + PartIf(c.leftOperand) + PartIf(c.operator) + PartIf(c.rightOperand);
    assert parts == [c.name + " =", c.leftOperand.value, c.operator.value, c.rightOperand.value];
    var n, l, o, r := c.name, c.leftOperand.value, c.operator.value, c.rightOperand.value;
    assert parts[1..][1..][1..] == [r];
    assert Join(parts[1..][1..], " ") == o + " " + r;
    assert Join(parts[1..], " ") == l + " " + (o + " " + r);
    assert Join(parts, " ") == n + " =" + " " + (l + " " + (o + " " + r));
  }

  /** A `not` command reads `name = not operand`: its left operand is left out. */
  lemma OneOperandText(c: Command)
    requires c.leftOperand == None && Truthy(c.operator) && Truthy(c.rightOperand)
    ensures ToString(c) == c.name + " = " + c.operator.value + " " + c.rightOperand.value
  {
    var parts := [c.name + " ="] + PartIf(c.leftOperand) + PartIf(c.operator) + PartIf(c.rightOperand);
    assert parts == [c.name + " =", c.operator.value, c.rightOperand.value];
    var n, o, r := c.name, c.operator.value, c.rightOperand.value;
    assert parts[1..][1..] == [r];
    assert Join(parts[1..], " ") == o + " " + r;
    assert Join(parts, " ") == n + " =" + " " + (o + " " + r);
  }

  /** The result type of a two-operand command: relational operators yield `bool`. */
  function TwoOperandsReturnType(op: Token, assumed: string): (r: string)
    ensures IsRelational(op) ==> r == BOOL
    ensures !IsRelational(op) ==> r == assumed
  {
    if IsRelational(op) then BOOL else assumed
  }

  /** The module-level `commands` list of command.py together with CommandFabric. */
  class CommandTable {
    var commands: seq<Command>

    constructor ()
      ensures commands == []
    {
      commands := [];
    }

    /** Every command in the list is named after its own position. */
    predicate Valid()
      reads this
    {
      forall k :: 0 <= k < |commands| ==> commands[k].name == IndexName(k)
    }

    /** `get_next_command_name`: a name no command in a valid list already has. */
    function NextCommandName(): (r: string)
      reads this
      ensures r == IndexName(|commands|)
      ensures Valid() ==> forall k :: 0 <= k < |commands| ==> commands[k].name != r
    {
      var r := IndexName(|commands|);
      if Valid() then
        (forall k | 0 <= k < |commands| ensures commands[k].name != r {
           IndexNameInjective(k, |commands|);
         }
         r)
      else r
    }

    /** `create_one_operand_command`: only `not` is accepted; the command is appended. */
    method CreateOneOperandCommand(op: Token, operand: string) returns (r: Result<Command>)
      modifies this
      ensures op != Not ==> r == Err(Analysis) && commands == old(commands)
      ensures op == Not ==>
        r == Ok(Command(IndexName(|old(commands)|), None, Some(OperatorName(Not)), Some(operand), Some(BOOL)))
        && commands == old(commands) + [r.value]
      ensures old(Valid()) ==> Valid()
    {
      if op != Not {
        return Err(Analysis);
      }
      var name := NextCommandName();
      var c := Command(name, None, Some(OperatorName(op)), Some(operand), Some(BOOL));
      commands := commands + [c];
      r := Ok(c);
    }

    /** `create_two_operands_command`: a named command with the operator's result type, appended. */
    method CreateTwoOperandsCommand(left: string, op: Token, right: string, assumed: string)
      returns (c: Command)
      modifies this
      ensures c == Command(IndexName(|old(commands)|), Some(left), Some(OperatorName(op)), Some(right),
                           Some(TwoOperandsReturnType(op, assumed)))
      ensures commands == old(commands) + [c]
      ensures old(Valid()) ==> Valid()
    {
      var name := NextCommandName();
      var returnType := assumed;
      if IsRelational(op) {
        returnType := BOOL;
      }
      c := Command(name, Some(left), Some(OperatorName(op)), Some(right), Some(returnType));
      commands := commands + [c];
    }
  }
}
