// The default executor as code: Execute drives a device session through its loops
// and its deferred cleanups, and is proved to do exactly the steps of Transaction.
module Executor {
  import opened Wrappers
  import C = Config
  import Runner
  import opened Transaction
  import opened Histories
  import Planner

  // A delete command that passes the guards is run on the device.
  method RunDelete(command: string, w: World, d: DeviceAnswer) returns (output: string, error: DeviceError, w': World)
    ensures Reply(Classify(error, output), output, w') == DeleteAnswer(w, Runner.Args("delete", command), d)
  {
    var cli := Runner.SplitCliCommand(command);
    if cli.None? || cli.value.operation != "delete" {
      NothingMissing();
      return "", OtherError("refused"), w;
    }
    var next := match Classify(d.error, d.output)
      case NoFault => C.Delete(w.Candidate(), cli.value.args)
      case MissingNode => w.Candidate()
      case _ => d.wreck;
    return d.output, d.error, w.(overlay := Some(next));
  }

  method RunSet(schema: C.Schema, command: string, w: World, d: DeviceAnswer)
    returns (output: string, error: DeviceError, w': World)
    ensures Reply(FaultOf(error), output, w') == SetAnswer(schema, w, Runner.Args("set", command), d)
  {
    var cli := Runner.SplitCliCommand(command);
    if cli.None? || cli.value.operation != "set" {
      return "", OtherError("refused"), w;
    }
    var next := if d.error.Fine? then C.Set(schema, w.Candidate(), cli.value.args) else d.wreck;
    return d.output, d.error, w.(overlay := Some(next));
  }

  // The lock, the session and the context of one execution.
  class Device {
    const env: Env
    var world: World
    var canceled: bool
    var clock: nat
    ghost var history: History

    // So far the execution has done what the machine does.
    ghost predicate Valid()
      reads this
    {
      && IsHistory(env, history) && |history| == clock + 1
      && Last(history) == (Current(), world) && Current().canceled == canceled && Current().plan == env.plan
    }

    // The machine's run at this point.
    ghost function Current(): Run
      reads this
    {
      if history == [] then Fresh(env.plan) else Last(history).0
    }

    // The run as it enters its next step.
    ghost function Entering(): Run
      reads this
    {
      Current().(canceled := canceled || env.script(clock).cancel)
    }

    constructor (env: Env)
      ensures Valid() && this.env == env && Current() == Fresh(env.plan)
    {
      this.env, this.world, this.canceled, this.clock := env, env.first, false, 0;
      history := [(Fresh(env.plan), env.first)];
    }

    // Every step consumes one answer.
    method Tick(ghost next: Run)
      requires IsHistory(env, history + [(next, world)]) && |history| == clock + 1 && Current().canceled == canceled
      requires next.plan == env.plan && next.canceled == Entering().canceled
      modifies this
      ensures Valid() && Current() == next && world == old(world)
      ensures clock == old(clock) + 1 && canceled == old(Entering().canceled)
    {
      canceled := canceled || env.script(clock).cancel;
      clock := clock + 1;
      history := history + [(next, world)];
    }

    // checkExecutionContext
    method CheckContext() returns (failed: bool)
      requires Valid() && Polls(Current().pc)
      modifies this
      ensures Valid() && failed == old(Entering().canceled)
      ensures failed <==> old(canceled) || env.script(old(clock)).cancel
      ensures if failed then Current() == Interrupt(old(Entering())) else unchanged(this)
    {
      failed := canceled || env.script(clock).cancel;
      if failed {
        ExtendCheck(env, history);
        Tick(Interrupt(Entering()));
      }
    }

    // The first check has passed.
    method Proceed()
      requires Valid() && Current().pc.Start? && !Entering().canceled
      modifies this
      ensures Valid() && Current() == old(Entering()).(pc := Locking)
    {
      ExtendStart(env, history);
      Tick(Entering().(pc := Locking));
    }

    // One round of the retry loop of fileApplyLocker.Lock: try the lock and, if
    // another run holds it, give up if the context is done.
    method TryLock() returns (error: DeviceError, blocked: bool)
      requires Valid() && Current().pc.Locking?
      modifies this
      ensures Valid()
      ensures if blocked then Current() == old(Entering())
        else
          || Current() == AfterLock(old(Entering()), Reply(FaultOf(error), old(env.script(clock).output), world))
          || (!error.Fine? && Current() == GiveUp(old(Entering())))
    {
      var d := env.script(clock);
      if d.error.Fine? && world.lock.Some? {
        ExtendWait(env, history);
        if (canceled || d.cancel) && d.choice {
          Tick(GiveUp(Entering()));
          return ContextError(""), false;
        }
        world := d.others;
        Tick(Entering());
        return Fine, true;
      }
      if d.error.Fine? {
        world := world.(lock := Some(env.me));
      }
      ExtendLock(env, history, world);
      Tick(AfterLock(Entering(), Reply(FaultOf(d.error), d.output, world)));
      return d.error, false;
    }

    // cliSession.Delete: a command that the guards refuse never reaches the device.
    method Delete(command: string) returns (output: string, error: DeviceError)
      requires Valid() && Current().pc.Deleting? && Current().pc.k < |env.plan.deletes| && !Entering().canceled
      requires env.plan.deletes[Current().pc.k] == Runner.Args("delete", command)
      modifies this
      ensures Valid()
      ensures Current()
        == AfterDelete(old(Entering()), old(Current().pc.k), Reply(Classify(error, output), output, world))
      ensures Reply(Classify(error, output), output, world)
        == DeleteAnswer(old(world), env.plan.deletes[old(Current().pc.k)], env.script(old(clock)))
      ensures clock == old(clock) + 1 && canceled == old(Entering().canceled)
    {
      ghost var now, k := Entering(), Current().pc.k;
      ExtendDelete(env, history, k);
      output, error, world := RunDelete(command, world, env.script(clock));
      Tick(AfterDelete(now, k, Reply(Classify(error, output), output, world)));
    }

    // cliSession.Set
    method Set(command: string) returns (output: string, error: DeviceError)
      requires Valid() && Current().pc.Setting? && Current().pc.k < |env.plan.sets| && !Entering().canceled
      requires env.plan.sets[Current().pc.k] == Runner.Args("set", command)
      modifies this
      ensures Valid()
      ensures Current() == AfterSet(old(Entering()), old(Current().pc.k), Reply(FaultOf(error), output, world))
    {
      ghost var now, k := Entering(), Current().pc.k;
      ExtendSet(env, history, k);
      output, error, world := RunSet(env.schema, command, world, env.script(clock));
      Tick(AfterSet(now, k, Reply(FaultOf(error), output, world)));
    }

    method Begin() returns (error: DeviceError)
      requires Valid() && Current().pc.Beginning?
      modifies this
      ensures Valid()
      ensures Current() == AfterBegin(old(Entering()), Reply(FaultOf(error), old(env.script(clock).output), world))
    {
      var d := env.script(clock);
      ghost var now := Entering();
      // a session that was not torn down may still be there
      if d.error.Fine? {
        world := world.(overlay := Some(if d.choice then world.Candidate() else world.active));
      }
      ExtendBegin(env, history, world);
      Tick(AfterBegin(now, Reply(FaultOf(d.error), d.output, world)));
      return d.error;
    }

    method Commit() returns (output: string, error: DeviceError)
      requires Valid() && Current().pc.Committing? && !Entering().canceled
      modifies this
      ensures Valid() && Current() == AfterCommit(old(Entering()), Reply(FaultOf(error), output, world))
    {
      var d := env.script(clock);
      ghost var now := Entering();
      if d.error.Fine? {
        world := world.(active := world.Candidate(), commits := world.commits + [env.me]);
      }
      ExtendCommit(env, history, world);
      Tick(AfterCommit(now, Reply(FaultOf(d.error), d.output, world)));
      return d.output, d.error;
    }

    method Save() returns (output: string, error: DeviceError)
      requires Valid() && Current().pc.Saving? && !Entering().canceled
      modifies this
      ensures Valid() && Current() == AfterSave(old(Entering()), Reply(FaultOf(error), output, world))
    {
      var d := env.script(clock);
      ghost var now := Entering();
      if d.error.Fine? {
        world := world.(boot := world.active);
      }
      ExtendSave(env, history, world);
      Tick(AfterSave(now, Reply(FaultOf(d.error), d.output, world)));
      return d.output, d.error;
    }

    method Discard(ghost explicit: bool) returns (output: string, error: DeviceError)
      requires Valid() && Current().pc == Discarding(explicit)
      modifies this
      ensures Valid() && Current() == AfterDiscard(old(Entering()), explicit, Reply(FaultOf(error), output, world))
    {
      var d := env.script(clock);
      ghost var now := Entering();
      var next := world.(overlay := Some(if d.error.Fine? then world.active else d.wreck));
      ExtendDiscard(env, history, explicit, next);
      world := next;
      Tick(AfterDiscard(now, explicit, Reply(FaultOf(d.error), d.output, next)));
      return d.output, d.error;
    }

    method Close() returns (error: DeviceError)
      requires Valid() && Current().pc.Closing?
      modifies this
      ensures Valid()
      ensures Current() == AfterClose(old(Entering()), Reply(FaultOf(error), old(env.script(clock).output), world))
    {
      var d := env.script(clock);
      ghost var now := Entering();
      if d.error.Fine? {
        world := world.(overlay := None);
      }
      ExtendClose(env, history, world);
      Tick(AfterClose(now, Reply(FaultOf(d.error), d.output, world)));
      return d.error;
    }

    // The release function that Lock returns.
    method Release() returns (error: DeviceError)
      requires Valid() && Current().pc.Releasing?
      modifies this
      ensures Valid()
      ensures Current() == AfterRelease(old(Entering()), Reply(FaultOf(error), old(env.script(clock).output), world))
    {
      var d := env.script(clock);
      ghost var now := Entering();
      // released by the unlock or, if that fails, by closing the file
      var next := if d.error.Fine? || d.choice then world.(lock := None) else world;
      ExtendRelease(env, history, next);
      world := next;
      Tick(AfterRelease(now, Reply(FaultOf(d.error), d.output, next)));
      return d.error;
    }
  }

  // ---- the executor ----

  // How a phase of the transaction ends: the next one follows, or the run returns
  // with an error after discarding the candidate itself or not.
  datatype Ending = Going | Stopped(outcome: Outcome, discarded: bool, discardOutput: string)

  // A run in its main part: nothing has failed and nothing is committed.
  predicate Working(r: Run) {
    r.outcome.Success? && !r.committed && !r.discarded && !r.applied && !r.saved
  }

  // The state in which a stopped phase leaves the run.
  ghost predicate HasStopped(r: Run, e: Ending) {
    && e.Stopped? && !r.committed && !r.applied && !r.saved
    && r.outcome == e.outcome && r.outcome.Failed? && r.discarded == e.discarded
    && r.pc == (if e.discarded then Closing else Discarding(false))
  }

  // discardAfterFailure
  method DiscardAfterFailure(dev: Device, code: Code) returns (e: Ending)
    requires dev.Valid() && dev.Current().pc == Discarding(true) && dev.Current().outcome == Failed(code, [])
    requires !dev.Current().committed && !dev.Current().applied && !dev.Current().saved
    modifies dev
    ensures dev.Valid() && HasStopped(dev.Current(), e) && e.discarded
    ensures Reported(dev.Current().trace) == Reported(old(dev.Current().trace)).(discardOutput := e.discardOutput)
  {
    var output, error := dev.Discard(true);
    var report := DiscardReport(FaultOf(error), output);
    return Stopped(Failed(code, if error.Fine? then [] else [Op.Discard(true)]), true, report);
  }

  lemma ToleratedFault(w: World, path: Option<C.Path>, d: DeviceAnswer)
    ensures var fault := DeleteAnswer(w, path, d).fault;
      Tolerated(d, path) <==> fault.NoFault? || fault.MissingNode?
  {
    ClassifyExactly(d.error, d.output);
  }

  // One command of the delete loop: a missing node is tolerated.
  method DeleteOne(dev: Device, i: nat, command: string, existing: string, ghost start: Run)
    returns (output: string, e: Ending, ghost end: Run)
    requires dev.Valid() && dev.Current() == start && start.pc == Deleting(i) && Working(start)
    requires i < |dev.env.plan.deletes| && dev.env.plan.deletes[i] == Runner.Args("delete", command)
    requires !dev.Entering().canceled
    requires Reported(start.trace) == NO_RESULT.(deleteOutput := existing)
    modifies dev
    ensures dev.Valid()
    ensures e.Going? ==> dev.Current() == ToDelete(end, i + 1) && Working(end)
    ensures e.Going? ==> Reported(end.trace) == NO_RESULT.(deleteOutput := output)
    ensures e.Going? <==> Tolerated(dev.env.script(old(dev.clock)), dev.env.plan.deletes[i])
    ensures e.Going? ==> dev.clock == old(dev.clock) + 1 && !dev.canceled
    ensures e.Stopped? ==> HasStopped(dev.Current(), e)
    ensures e.Stopped?
      ==> Reported(dev.Current().trace) == NO_RESULT.(deleteOutput := output, discardOutput := e.discardOutput)
  {
    ghost var d, path := dev.env.script(dev.clock), dev.env.plan.deletes[i];
    ToleratedFault(dev.world, path, d);
    ghost var now := dev.Entering();
    var text, error := dev.Delete(command);
    output := AppendOutput(existing, text);
    ghost var reply := Reply(Classify(error, text), text, dev.world);
    end := Log(now, Op.Delete(i), reply);
    DeleteReported(now, i, reply);
    if !error.Fine? {
      if IsMissingDeleteOutput(text) {
        return output, Going, end;
      }
      if error.ContextError? {
        return output, Stopped(Failed(ExecutorFailed, []), false, ""), end;
      }
      e := DiscardAfterFailure(dev, DeleteFailed);
      return output, e, end;
    }
    return output, Going, end;
  }

  // The k-th delete is not kept from running by a cancellation and does not stop the run.
  ghost predicate PassesNow(env: Env, clock: nat, canceled: bool, k: nat)
    requires k < |env.plan.deletes|
  {
    !canceled && !env.script(clock).cancel && Tolerated(env.script(clock), env.plan.deletes[k])
  }

  // The same, if the deletes start at some point.
  ghost predicate PassesAt(env: Env, clock: nat, canceled: bool, k: nat)
    requires k < |env.plan.deletes|
  {
    PassesNow(env, clock + k, canceled, k)
  }

  ghost predicate FirstPass(env: Env, clock: nat, canceled: bool, n: nat)
    requires n <= |env.plan.deletes|
  {
    forall k | 0 <= k < n :: PassesAt(env, clock, canceled, k)
  }

  lemma OneMorePasses(env: Env, clock: nat, canceled: bool, i: nat)
    requires i < |env.plan.deletes|
    ensures FirstPass(env, clock, canceled, i + 1)
      <==> FirstPass(env, clock, canceled, i) && PassesNow(env, clock + i, canceled, i)
    ensures FirstPass(env, clock, canceled, |env.plan.deletes|) ==> FirstPass(env, clock, canceled, i + 1)
  {
    assert PassesAt(env, clock, canceled, i) == PassesNow(env, clock + i, canceled, i);
  }

  // One round of the delete loop.
  method DeleteStep(dev: Device, i: nat, command: string, existing: string, ghost start: Run)
    returns (output: string, e: Ending, ghost end: Run)
    requires dev.Valid() && dev.Current() == ToDelete(start, i) && Working(start)
    requires i < |dev.env.plan.deletes| && dev.env.plan.deletes[i] == Runner.Args("delete", command)
    requires Reported(start.trace) == NO_RESULT.(deleteOutput := existing)
    modifies dev
    ensures dev.Valid()
    ensures e.Going? <==> PassesNow(dev.env, old(dev.clock), old(dev.canceled), i)
    ensures e.Going? ==> dev.clock == old(dev.clock) + 1 && !dev.canceled
    ensures e.Going? ==> dev.Current() == ToDelete(end, i + 1) && Working(end)
    ensures e.Going? ==> Reported(end.trace) == NO_RESULT.(deleteOutput := output)
    ensures e.Stopped? ==> HasStopped(dev.Current(), e)
    ensures e.Stopped?
      ==> Reported(dev.Current().trace) == NO_RESULT.(deleteOutput := output, discardOutput := e.discardOutput)
  {
    var canceled := dev.CheckContext();
    if canceled {
      return existing, Stopped(Failed(ExecutorFailed, []), false, ""), start;
    }
    output, e, end := DeleteOne(dev, i, command, existing, dev.Current());
  }

  // The next phase follows exactly if every delete passes.
  method DeletePhase(dev: Device, deletes: seq<string>, ghost start: Run)
    returns (output: string, e: Ending, ghost end: Run)
    requires dev.Valid() && dev.Current() == ToDelete(start, 0) && Working(start)
    requires dev.env.plan.deletes == Planner.DecodeAll("delete", deletes)
    requires Reported(start.trace) == NO_RESULT
    modifies dev
    ensures dev.Valid()
    ensures e.Going? <==> FirstPass(dev.env, old(dev.clock), old(dev.canceled), |deletes|)
    ensures e.Going?
      ==> dev.Current() == ToSet(end, 0) && Working(end) && Reported(end.trace) == NO_RESULT.(deleteOutput := output)
    ensures e.Stopped? ==> HasStopped(dev.Current(), e)
    ensures e.Stopped?
      ==> Reported(dev.Current().trace) == NO_RESULT.(deleteOutput := output, discardOutput := e.discardOutput)
  {
    output := "";
    end := start;
    for i := 0 to |deletes|
      invariant dev.Valid() && dev.Current() == ToDelete(end, i) && Working(end)
      invariant Reported(end.trace) == NO_RESULT.(deleteOutput := output)
      invariant dev.clock == old(dev.clock) + i && (i == 0 ==> dev.canceled == old(dev.canceled))
      invariant i > 0 ==> !dev.canceled && !old(dev.canceled)
      invariant FirstPass(dev.env, old(dev.clock), old(dev.canceled), i)
    {
      output, e, end := DeleteStep(dev, i, deletes[i], output, end);
      OneMorePasses(dev.env, old(dev.clock), old(dev.canceled), i);
      if e.Stopped? {
        return output, e, end;
      }
    }
    return output, Going, end;
  }

  method SetPhase(dev: Device, sets: seq<string>, ghost start: Run, ghost base: ExecutionResult)
    returns (output: string, e: Ending, ghost end: Run)
    requires dev.Valid() && dev.Current() == ToSet(start, 0) && Working(start)
    requires dev.env.plan.sets == Planner.DecodeAll("set", sets)
    requires Reported(start.trace) == base && base.setOutput == "" && base.discardOutput == ""
    modifies dev
    ensures dev.Valid()
    ensures e.Going?
      ==> dev.Current() == ToSet(end, |sets|) && Working(end) && Reported(end.trace) == base.(setOutput := output)
    ensures e.Going? ==> end.plan == dev.env.plan
    ensures e.Stopped? ==> HasStopped(dev.Current(), e)
    ensures e.Stopped? ==> Reported(dev.Current().trace) == base.(setOutput := output, discardOutput := e.discardOutput)
  {
    output := "";
    end := start;
    for i := 0 to |sets|
      invariant dev.Valid() && dev.Current() == ToSet(end, i) && Working(end)
      invariant Reported(end.trace) == base.(setOutput := output)
    {
      var canceled := dev.CheckContext();
      if canceled {
        return output, Stopped(Failed(ExecutorFailed, []), false, ""), end;
      }
      ghost var now := dev.Entering();
      var text, error := dev.Set(sets[i]);
      output := AppendOutput(output, text);
      end := Log(now, Op.Set(i), Reply(FaultOf(error), text, dev.world));
      if !error.Fine? {
        if error.ContextError? {
          return output, Stopped(Failed(ExecutorFailed, []), false, ""), end;
        }
        e := DiscardAfterFailure(dev, SetFailed);
        return output, e, end;
      }
    }
    return output, Going, end;
  }

  method CommitPhase(dev: Device, ghost base: ExecutionResult) returns (output: string, e: Ending, ghost end: Run)
    requires dev.Valid() && dev.Current().pc.Committing? && Working(dev.Current())
    requires Reported(dev.Current().trace) == base && base.commitOutput == "" && base.discardOutput == ""
    modifies dev
    ensures dev.Valid()
    ensures e.Going?
      ==> dev.Current() == ToCommitted(end) && Working(end) && Reported(end.trace) == base.(commitOutput := output)
    ensures e.Stopped? ==> HasStopped(dev.Current(), e)
    ensures e.Stopped?
      ==> Reported(dev.Current().trace) == base.(commitOutput := output, discardOutput := e.discardOutput)
  {
    end := dev.Current();
    var canceled := dev.CheckContext();
    if canceled {
      return "", Stopped(Failed(ExecutorFailed, []), false, ""), end;
    }
    ghost var now := dev.Entering();
    var error;
    output, error := dev.Commit();
    end := Log(now, Op.Commit, Reply(FaultOf(error), output, dev.world));
    if !error.Fine? {
      if error.ContextError? {
        return output, Stopped(Failed(ExecutorFailed, []), false, ""), end;
      }
      e := DiscardAfterFailure(dev, CommitFailed);
      return output, e, end;
    }
    return output, Going, end;
  }

  method SavePhase(dev: Device, ghost base: ExecutionResult) returns (output: string, saved: bool, outcome: Outcome)
    requires dev.Valid() && dev.Current().pc.Saving? && dev.Current().outcome.Success?
    requires dev.Current().committed && dev.Current().applied && !dev.Current().saved
    requires Reported(dev.Current().trace) == base && base.saveOutput == ""
    modifies dev
    ensures dev.Valid() && dev.Current().pc.Closing? && dev.Current().outcome == outcome
    ensures dev.Current().committed && dev.Current().applied && dev.Current().saved == saved
    ensures Reported(dev.Current().trace) == base.(saveOutput := output)
  {
    var canceled := dev.CheckContext();
    if canceled {
      return "", false, Failed(ExecutorFailed, []);
    }
    var error;
    output, error := dev.Save();
    if error.Fine? {
      return output, true, Success;
    }
    return output, false, Failed(if error.ContextError? then ExecutorFailed else SaveFailed, []);
  }

  // A session between its begin and the deferred cleanup.
  ghost predicate Left(r: Run, result: ExecutionResult, outcome: Outcome, committed: bool, discarded: bool) {
    && ResultOf(r) == result && r.outcome == outcome
    && r.committed == committed && (committed || r.discarded == discarded)
    && r.pc == (if committed || discarded then Closing else Discarding(false))
    && (!committed ==> outcome.Failed?)
  }

  // The commands, the commit and the save of Execute.
  method Body(dev: Device, plan: Planner.TextPlan, ghost start: Run)
    returns (result: ExecutionResult, outcome: Outcome, committed: bool, discarded: bool)
    requires dev.Valid() && dev.Current() == ToDelete(start, 0) && Working(start)
    requires dev.env.plan == Planner.Decode(plan)
    requires Reported(start.trace) == NO_RESULT
    modifies dev
    ensures dev.Valid() && Left(dev.Current(), result, outcome, committed, discarded)
  {
    result, committed, discarded := NO_RESULT, false, false;
    var output, e;
    ghost var end;
    output, e, end := DeletePhase(dev, plan.deletes, start);
    result := result.(deleteOutput := output);
    if e.Stopped? {
      return result.(discardOutput := e.discardOutput), e.outcome, false, e.discarded;
    }
    output, e, end := SetPhase(dev, plan.sets, end, result);
    result := result.(setOutput := output);
    if e.Stopped? {
      return result.(discardOutput := e.discardOutput), e.outcome, false, e.discarded;
    }
    if plan.commit {
      output, e, end := CommitPhase(dev, result);
      result := result.(commitOutput := output);
      if e.Stopped? {
        return result.(discardOutput := e.discardOutput), e.outcome, false, e.discarded;
      }
    }
    committed := true;
    result := result.(applied := true);
    if !plan.save {
      return result, Success, committed, discarded;
    }
    var saved;
    output, saved, outcome := SavePhase(dev, result.(applied := false));
    return result.(saveOutput := output, saved := saved), outcome, committed, discarded;
  }

  // A failing cleanup step is appended to an earlier error, or becomes the error.
  function Noted(outcome: Outcome, error: DeviceError, op: Op): Outcome {
    if error.Fine? then outcome
    else
      match outcome
      case Success => Failed(ExecutorFailed, [])
      case Failed(code, notes) => Failed(code, notes + [op])
  }

  // The deferred discard.
  method DiscardLate(dev: Device, existing: string) returns (discardOutput: string, error: DeviceError)
    requires dev.Valid() && dev.Current().pc == Discarding(false) && dev.Current().outcome.Failed?
    requires Reported(dev.Current().trace).discardOutput == existing
    modifies dev
    ensures dev.Valid() && dev.Current().pc.Closing?
    ensures ResultOf(dev.Current()) == ResultOf(old(dev.Current())).(discardOutput := discardOutput)
    ensures dev.Current().outcome == Noted(old(dev.Current()).outcome, error, Op.Discard(false))
  {
    ghost var now := dev.Entering();
    var output;
    output, error := dev.Discard(false);
    DiscardReported(now, Reply(FaultOf(error), output, dev.world));
    discardOutput := AppendOutput(existing, output);
    LateDiscardAppends(existing, Event(Op.Discard(false), FaultOf(error), output));
  }

  method EndSession(dev: Device) returns (error: DeviceError)
    requires dev.Valid() && dev.Current().pc.Closing?
    modifies dev
    ensures dev.Valid() && dev.Current().pc.Releasing?
    ensures ResultOf(dev.Current()) == ResultOf(old(dev.Current()))
    ensures dev.Current().outcome == Noted(old(dev.Current()).outcome, error, Op.Close)
  {
    ghost var now := dev.Entering();
    error := dev.Close();
    CloseReported(now, Reply(FaultOf(error), old(dev.env.script(dev.clock).output), dev.world), error);
  }

  lemma CloseReported(r: Run, reply: Reply, error: DeviceError)
    requires r.pc.Closing? && reply.fault == FaultOf(error)
    ensures var r' := AfterClose(r, reply);
      r'.pc.Releasing? && ResultOf(r') == ResultOf(r) && r'.outcome == Noted(r.outcome, error, Op.Close)
  {
  }

  lemma ReleaseReported(r: Run, reply: Reply, error: DeviceError)
    requires r.pc.Releasing? && reply.fault == FaultOf(error)
    ensures var r' := AfterRelease(r, reply);
      r'.pc.Done? && ResultOf(r') == ResultOf(r) && r'.outcome == Noted(r.outcome, error, Op.Release)
  {
  }

  // The deferred cleanup of the session.
  method CleanUp(dev: Device, result: ExecutionResult, outcome: Outcome, committed: bool, discarded: bool)
    returns (result': ExecutionResult, outcome': Outcome)
    requires dev.Valid() && Left(dev.Current(), result, outcome, committed, discarded)
    modifies dev
    ensures dev.Valid() && dev.Current().pc.Releasing?
    ensures ResultOf(dev.Current()) == result' && dev.Current().outcome == outcome'
  {
    result', outcome' := result, outcome;
    if !committed && !discarded {
      var output, discardError := DiscardLate(dev, result.discardOutput);
      result' := result'.(discardOutput := output);
      outcome' := Noted(outcome', discardError, Op.Discard(false));
    }
    var closeError := EndSession(dev);
    outcome' := Noted(outcome', closeError, Op.Close);
  }

  // fileApplyLocker.Lock, observed for at most the given number of attempts.
  method Lock(dev: Device, patience: nat) returns (acquired: bool, waiting: bool)
    requires dev.Valid() && dev.Current().pc.Locking? && Working(dev.Current()) && dev.Current().trace.Nothing?
    modifies dev
    ensures dev.Valid() && Reported(dev.Current().trace) == NO_RESULT
    ensures !dev.Current().applied && !dev.Current().saved
    ensures acquired ==> !waiting && dev.Current().pc.Beginning? && Working(dev.Current())
    ensures waiting ==> dev.Current().pc.Locking?
    ensures !acquired && !waiting ==> dev.Current().pc.Done? && dev.Current().outcome == Failed(ExecutorFailed, [])
  {
    var attempts := 0;
    while attempts < patience
      invariant dev.Valid() && dev.Current().pc.Locking? && Working(dev.Current()) && dev.Current().trace.Nothing?
    {
      var error, blocked := dev.TryLock();
      if !blocked {
        return error.Fine?, false;
      }
      attempts := attempts + 1;
    }
    return false, true;
  }

  // The session of Execute, with the lock held.
  method Session(dev: Device, plan: Planner.TextPlan) returns (result: ExecutionResult, outcome: Outcome)
    requires dev.Valid() && dev.Current().pc.Beginning? && Working(dev.Current())
    requires Reported(dev.Current().trace) == NO_RESULT
    requires dev.env.plan == Planner.Decode(plan)
    modifies dev
    ensures dev.Valid() && dev.Current().pc.Releasing?
    ensures ResultOf(dev.Current()) == result && dev.Current().outcome == outcome
  {
    var beginError, start := Start(dev);
    if !beginError.Fine? {
      return NO_RESULT, Failed(ExecutorFailed, []);
    }
    var committed, discarded;
    result, outcome, committed, discarded := Body(dev, plan, start);
    result, outcome := CleanUp(dev, result, outcome, committed, discarded);
  }

  method Start(dev: Device) returns (error: DeviceError, ghost start: Run)
    requires dev.Valid() && dev.Current().pc.Beginning? && Working(dev.Current())
    requires Reported(dev.Current().trace) == NO_RESULT
    modifies dev
    ensures dev.Valid()
    ensures error.Fine? ==> dev.Current() == ToDelete(start, 0) && Working(start) && Reported(start.trace) == NO_RESULT
    ensures !error.Fine? ==> dev.Current().pc.Releasing? && dev.Current().outcome == Failed(ExecutorFailed, [])
    ensures !error.Fine? ==> ResultOf(dev.Current()) == NO_RESULT
  {
    ghost var now := dev.Entering();
    error := dev.Begin();
    ghost var reply := Reply(FaultOf(error), old(dev.env.script(dev.clock)).output, dev.world);
    start := Log(now, Op.Begin, reply).(base := dev.world.Candidate());
  }

  method EndLock(dev: Device) returns (error: DeviceError)
    requires dev.Valid() && dev.Current().pc.Releasing?
    modifies dev
    ensures dev.Valid() && dev.Current().pc.Done?
    ensures ResultOf(dev.Current()) == ResultOf(old(dev.Current()))
    ensures dev.Current().outcome == Noted(old(dev.Current()).outcome, error, Op.Release)
  {
    ghost var now := dev.Entering();
    error := dev.Release();
    ReleaseReported(now, Reply(FaultOf(error), old(dev.env.script(dev.clock).output), dev.world), error);
  }

  // Execute.  Unless it still waits for the lock, the run is complete, and what is
  // returned is the machine's result and error.
  method Execute(dev: Device, plan: Planner.TextPlan, patience: nat)
    returns (result: ExecutionResult, outcome: Outcome, waiting: bool)
    requires dev.Valid() && dev.Current() == Fresh(dev.env.plan) && dev.env.plan == Planner.Decode(plan)
    modifies dev
    ensures dev.Valid()
    ensures !waiting ==> dev.Current().pc.Done? && result == ResultOf(dev.Current()) && outcome == dev.Current().outcome
    ensures waiting ==> dev.Current().pc.Locking?
  {
    var canceled := dev.CheckContext();
    if canceled {
      return NO_RESULT, Failed(ExecutorFailed, []), false;
    }
    dev.Proceed();
    var acquired;
    acquired, waiting := Lock(dev, patience);
    if !acquired {
      return NO_RESULT, Failed(ExecutorFailed, []), waiting;
    }
    result, outcome := Session(dev, plan);
    var releaseError := EndLock(dev);
    outcome := Noted(outcome, releaseError, Op.Release);
  }
}
