// Applying an input through the default executor: apply/engine.go.
module Engine {
  import opened Wrappers
  import C = Config
  import opened Transaction
  import opened Histories
  import RunProperties
  import Effects
  import Planner
  import Executor

  datatype Report = Report(
    target: string, configUuid: string, deletes: seq<string>, sets: seq<string>, execution: ExecutionResult)

  // resultFromExecution
  function ReportOf(plan: Planner.TextPlan, e: ExecutionResult): Report {
    Report(plan.target, plan.configUuid, plan.deletes, plan.sets, e.(saved := plan.save && e.saved))
  }

  // The correction that Apply makes after a failed execution.
  function Corrected(report: Report, outcome: Outcome): Report {
    if outcome.Failed? && (outcome.code.DeleteFailed? || outcome.code.SetFailed? || outcome.code.CommitFailed?) then
      report.(execution := report.execution.(applied := false))
    else report
  }

  // Neither the correction nor the mask on Saved changes what the default executor
  // reports.
  lemma CorrectionIdle(schema: C.Schema, me: nat, plan: Planner.TextPlan, turns: seq<Turn>)
    ensures var r := Behave(schema, me, Planner.Decode(plan), turns);
      Corrected(ReportOf(plan, ResultOf(r)), r.outcome).execution == ResultOf(r)
  {
    RunProperties.BehaveKeeps(schema, me, Planner.Decode(plan), turns);
  }

  // Whatever an executor reports: a failed delete, set or commit is never passed on as
  // applied, nor as saved what was not to be saved; all else is passed on as it is.
  lemma CorrectionExactly(plan: Planner.TextPlan, e: ExecutionResult, outcome: Outcome)
    ensures var corrected := Corrected(ReportOf(plan, e), outcome).execution;
      && (corrected.applied <==>
            e.applied && !(outcome.Failed? && outcome.code in {DeleteFailed, SetFailed, CommitFailed}))
      && corrected == e.(applied := corrected.applied, saved := plan.save && e.saved)
  {
  }

  datatype ApplyAnswer = Rejected(error: Planner.PrepareError) | Waiting | Finished(report: Report, outcome: Outcome)

  // What Apply may answer after a complete run of a plan.
  ghost predicate Truthful(plan: Planner.TextPlan, r: Run, answer: ApplyAnswer) {
    && r.pc.Done? && answer.Finished?
    && answer.report.target == plan.target && answer.report.configUuid == plan.configUuid
    && answer.report.deletes == plan.deletes && answer.report.sets == plan.sets
    && var e := answer.report.execution;
       && e == ResultOf(r) && answer.outcome == RunProperties.ErrorOf(r.trace)
       && (e.applied <==> RunProperties.Succeeded(r.trace, Commit))
       && (e.saved <==> RunProperties.Succeeded(r.trace, Save))
       && (e.saved ==> e.applied && plan.save)
       && (answer.outcome.Success? ==> e.applied)
  }

  lemma AnswerTruthful(env: Env, h: History, plan: Planner.TextPlan)
    requires IsHistory(env, h) && env.plan == Planner.Decode(plan) && plan.commit && Last(h).0.pc.Done?
    ensures var r := Last(h).0;
      Truthful(plan, r, Finished(Corrected(ReportOf(plan, ResultOf(r)), r.outcome), r.outcome))
  {
    HistoryBehaves(env, h);
    CorrectionIdle(env.schema, env.me, plan, Turns(env, h));
    RunProperties.BehaveKeeps(env.schema, env.me, env.plan, Turns(env, h));
  }

  // Without an applied run the active configuration is the one that was found when the
  // lock was taken, or last looked for.
  lemma NotApplied(env: Env, h: History)
    requires IsHistory(env, h) && env.plan.commit
    ensures !Last(h).0.applied || Last(h).0.pc.Locking? ==> Last(h).1.active == Effects.Found(h).active
  {
    Effects.NothingUnlessApplied(env, h);
  }

  // The boot configuration is the active one if the run saved, and otherwise as found.
  lemma BootReported(env: Env, h: History)
    requires IsHistory(env, h) && env.plan.commit
    ensures Last(h).0.saved && !Last(h).0.pc.Locking? ==> Last(h).1.boot == Last(h).1.active
    ensures !Last(h).0.saved || Last(h).0.pc.Locking? ==> Last(h).1.boot == Effects.Found(h).boot
  {
    Effects.BootExactly(env, h);
  }

  // Apply, observed for at most the given number of attempts at the lock.  What
  // happened to the world is an execution of the prepared plan.
  method Apply(
      schema: C.Schema, me: nat, world: World, script: nat -> DeviceAnswer, canceled: bool,
      input: Planner.Input, roots: seq<string>, save: bool, patience: nat)
    returns (answer: ApplyAnswer, world': World, ghost plan: Planner.TextPlan, ghost h: History)
    ensures answer.Rejected? ==> world' == world
    ensures answer.Rejected? ==>
      || Some(answer.error) == Planner.InputError(canceled, input)
      || (answer.error.BadCommands? && Planner.Parser.Verdict(input.desiredCommands, Err(answer.error.error)))
    ensures !answer.Rejected? ==>
      && Planner.IsPlanFor(plan, input, roots, save)
      && IsHistory(Env(schema, me, Planner.Decode(plan), world, script), h) && Last(h).1 == world'
    ensures answer.Waiting? ==> Last(h).0.pc.Locking?
    ensures answer.Finished? ==> Truthful(plan, Last(h).0, answer)
    ensures answer.Waiting? || (answer.Finished? && !answer.report.execution.applied) ==>
      world'.active == Effects.Found(h).active
    ensures answer.Waiting? || (answer.Finished? && !answer.report.execution.saved) ==>
      world'.boot == Effects.Found(h).boot
    ensures answer.Finished? && answer.report.execution.saved ==> world'.boot == world'.active
  {
    plan, h := Planner.TextPlan("", "", [], [], false, false), [];
    var prepared := Planner.Prepare(canceled, input, roots, save);
    if prepared.Err? {
      return Rejected(prepared.error), world, plan, h;
    }
    plan := prepared.value;
    var dev := new Executor.Device(Env(schema, me, Planner.Decode(prepared.value), world, script));
    var execution, outcome, waiting := Executor.Execute(dev, prepared.value, patience);
    world', h := dev.world, dev.history;
    NotApplied(dev.env, h);
    BootReported(dev.env, h);
    if waiting {
      return Waiting, world', plan, h;
    }
    AnswerTruthful(dev.env, h, plan);
    answer := Finished(Corrected(ReportOf(prepared.value, execution), outcome), outcome);
  }
}
