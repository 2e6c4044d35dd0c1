// Preparing a plan from input text: apply/planner.go.
module Planner {
  import opened Wrappers
  import C = Config
  import Text
  import Tokenizer
  import Runner
  import Policy
  import Parser
  import Transaction

  datatype Input = Input(target: string, configUuid: string, desiredCommands: string)

  // A plan as text, the way the executor receives it.
  datatype TextPlan = TextPlan(
    target: string, configUuid: string, deletes: seq<string>, sets: seq<string>, commit: bool, save: bool)

  datatype PrepareError =
    | ContextCanceled | TargetRequired | UnsupportedTarget | UuidRequired | EmptyCommands
    | BadCommands(error: Parser.ParseError)

  const TARGET := "vyos"

  // validatePrepareInput
  function InputError(canceled: bool, input: Input): Option<PrepareError> {
    if canceled then Some(ContextCanceled)
    else if Text.TrimSpace(input.target) == "" then Some(TargetRequired)
    else if input.target != TARGET then Some(UnsupportedTarget)
    else if Text.TrimSpace(input.configUuid) == "" then Some(UuidRequired)
    else if Text.TrimSpace(input.desiredCommands) == "" then Some(EmptyCommands)
    else None
  }

  // The plan for an input whose commands are accepted: always one commit.
  ghost predicate IsPlanFor(plan: TextPlan, input: Input, roots: seq<string>, save: bool) {
    && Parser.Verdict(input.desiredCommands, Ok(plan.sets))
    && |plan.deletes| == |roots| && (forall i | 0 <= i < |roots| :: plan.deletes[i] == Policy.DeleteCommand(roots[i]))
    && plan.target == input.target && plan.configUuid == input.configUuid
    && plan.commit && plan.save == save
  }

  // prepare
  method Prepare(canceled: bool, input: Input, roots: seq<string>, save: bool)
    returns (r: Result<TextPlan, PrepareError>)
    ensures InputError(canceled, input).Some? ==> r == Err(InputError(canceled, input).value)
    ensures InputError(canceled, input).None? ==>
      match r
      case Ok(plan) => IsPlanFor(plan, input, roots, save)
      case Err(e) => e.BadCommands? && Parser.Verdict(input.desiredCommands, Err(e.error))
  {
    var bad := InputError(canceled, input);
    if bad.Some? {
      return Err(bad.value);
    }
    var sets := Parser.ParseCommands(input.desiredCommands);
    if sets.Err? {
      return Err(BadCommands(sets.error));
    }
    var deletes := Policy.BuildDeleteCommands(roots);
    return Ok(TextPlan(input.target, input.configUuid, deletes, sets.value, true, save));
  }

  // The plan as the device session understands it.
  function Decode(plan: TextPlan): Transaction.Plan {
    Transaction.Plan(DecodeAll("delete", plan.deletes), DecodeAll("set", plan.sets), plan.commit, plan.save)
  }

  function DecodeAll(operation: string, commands: seq<string>): seq<Option<C.Path>> {
    seq(|commands|, i requires 0 <= i < |commands| => Runner.Args(operation, commands[i]))
  }

  // On a prepared plan the runner's guards never fire: deletes address the roots'
  // own paths and sets exactly the validated tokens.
  lemma GuardsNeverFire(plan: TextPlan, input: Input, roots: seq<string>, save: bool)
    requires IsPlanFor(plan, input, roots, save)
    requires forall root | root in roots :: Policy.IsAllowedRoot(root)
    ensures var p := Decode(plan);
      && |p.deletes| == |roots| && |p.sets| == |plan.sets|
      && (forall i | 0 <= i < |roots| :: p.deletes[i] == Some(Policy.RootWords(roots[i])))
      && (forall i | 0 <= i < |plan.sets| :: ValidatedPath(plan.sets[i], p.sets[i]))
  {
    var p := Decode(plan);
    forall i | 0 <= i < |roots|
      ensures p.deletes[i] == Some(Policy.RootWords(roots[i]))
    {
      DecodedDelete(roots[i]);
    }
    forall i | 0 <= i < |plan.sets|
      ensures ValidatedPath(plan.sets[i], p.sets[i])
    {
      DecodedSet(input.desiredCommands, plan.sets, plan.sets[i]);
    }
  }

  // The decoded path of a command is the tail of tokens that were validated.
  ghost predicate ValidatedPath(command: string, path: Option<C.Path>) {
    exists tokens :: Parser.ValidSetPath(tokens) && Tokenizes(command, tokens) && path == Some(tokens[1..])
  }

  predicate Tokenizes(command: string, tokens: seq<string>) {
    Tokenizer.Tokenize(command) == Some(tokens)
  }

  lemma DecodedDelete(root: string)
    requires Policy.IsAllowedRoot(root)
    ensures Runner.Args("delete", Policy.DeleteCommand(root)) == Some(Policy.RootWords(root))
  {
    Policy.DeleteIsRun(root);
  }

  lemma DecodedSet(text: string, commands: seq<string>, c: string)
    requires Parser.Verdict(text, Ok(commands)) && c in commands
    ensures ValidatedPath(c, Runner.Args("set", c))
  {
    Parser.ValidatedIsRun(text, commands, c);
    assert Tokenizes(c, Tokenizer.Tokenize(c).value);
  }

  // ---- which inputs are read at all ----

  // An input is accepted exactly if it is for this target and names a configuration and
  // commands; what is missing first is reported.
  lemma InputExactly(canceled: bool, input: Input)
    ensures var e := InputError(canceled, input);
      && (e.None? <==>
            !canceled && input.target == "vyos" && !Text.Blank(input.configUuid) && !Text.Blank(input.desiredCommands))
      && (e == Some(ContextCanceled) <==> canceled)
      && (e == Some(TargetRequired) <==> !canceled && Text.Blank(input.target))
      && (e == Some(UnsupportedTarget) <==> !canceled && !Text.Blank(input.target) && input.target != "vyos")
      && (e == Some(UuidRequired) <==> !canceled && input.target == "vyos" && Text.Blank(input.configUuid))
      && (e == Some(EmptyCommands) <==>
            !canceled && input.target == "vyos" && !Text.Blank(input.configUuid) && Text.Blank(input.desiredCommands))
  {
    Text.BlankExactly(input.target);
    Text.BlankExactly(input.configUuid);
    Text.BlankExactly(input.desiredCommands);
    assert 'v' in "vyos";
  }
}
