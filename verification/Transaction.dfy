// One run of the default executor (apply/default_executor.go) as a small-step
// machine: every call on the lock or on the device session is one step, and
// cancellation may arrive before any of them.
module Transaction {
  import opened Wrappers
  import C = Config

  datatype Code = ExecutorFailed | DeleteFailed | SetFailed | CommitFailed | SaveFailed

  // A plan as the device session understands it: every command is the path it
  // deletes or sets, or None if the runner's guards refuse it.
  datatype Plan = Plan(deletes: seq<Option<C.Path>>, sets: seq<Option<C.Path>>, commit: bool, save: bool)

  // How a call fails: a delete of a node that its output reports missing, with a
  // context error, or with any other error.
  datatype Fault = NoFault | MissingNode | ContextFault(text: string) | OtherFault(text: string)

  // The calls of a run.  Check is the poll of the context, logged when it fails;
  // an explicit discard is the one right after a failing call, the other one is
  // part of the deferred cleanup.
  datatype Op =
    | Check | Lock | Begin | Delete(k: nat) | Set(k: nat) | Commit | Save
    | Discard(explicit: bool) | Close | Release

  datatype Event = Event(op: Op, fault: Fault, output: string)

  // The calls of a run so far, the latest one last.
  datatype Trace = Nothing | Then(front: Trace, last: Event)

  // The error a run returns: a code, and the cleanup steps whose failures were
  // appended to it.
  datatype Outcome = Success | Failed(code: Code, notes: seq<Op>)

  datatype Pc =
    | Start | Locking | Beginning | Deleting(k: nat) | Setting(k: nat) | Committing | Saving
    | Discarding(explicit: bool) | Closing | Releasing | Done

  // The local state of a run; base is the candidate its session began with.
  datatype Run = Run(
    plan: Plan, pc: Pc, canceled: bool, committed: bool, discarded: bool,
    applied: bool, saved: bool, outcome: Outcome, base: C.Config, trace: Trace)

  // What runs share: the active and the boot configuration, the candidate of the
  // session keyed by the process id, the file lock, and the order of the commits.
  datatype World = World(
    active: C.Config, overlay: Option<C.Config>, boot: C.Config, lock: Option<nat>, commits: seq<nat>)
  {
    function Candidate(): C.Config {
      match overlay case Some(c) => c case None => active
    }
  }

  // What the environment decides at one step: whether the context is canceled
  // before it, whether the call fails, its output, the candidate a failing call
  // leaves behind, and the resolution of one further choice.
  datatype Answer = Answer(cancel: bool, fault: Fault, output: string, wreck: C.Config, choice: bool)

  datatype Reply = Reply(fault: Fault, output: string, world: World)

  function Fresh(plan: Plan): Run {
    Run(plan, Start, false, false, false, false, false, Success, {}, Nothing)
  }

  // ---- the effect of a step on the shared world ----

  // A command the guards refuse never reaches the device.
  const REFUSED := OtherFault("refused")

  function DeleteReply(w: World, command: Option<C.Path>, a: Answer): Reply {
    match command
    case None => Reply(REFUSED, "", w)
    case Some(path) =>
      var next :=
        if a.fault.NoFault? then C.Delete(w.Candidate(), path)
        else if a.fault.MissingNode? then w.Candidate()
        else a.wreck;
      Reply(a.fault, a.output, w.(overlay := Some(next)))
  }

  function SetReply(schema: C.Schema, w: World, command: Option<C.Path>, a: Answer): Reply {
    match command
    case None => Reply(REFUSED, "", w)
    case Some(path) =>
      var next := if a.fault.NoFault? then C.Set(schema, w.Candidate(), path) else a.wreck;
      Reply(a.fault, a.output, w.(overlay := Some(next)))
  }

  function Perform(schema: C.Schema, me: nat, r: Run, w: World, a: Answer): Reply {
    var plain := Reply(a.fault, a.output, w);
    match r.pc
    case Start => Reply(NoFault, "", w)
    case Locking => if a.fault.NoFault? then plain.(world := w.(lock := Some(me))) else plain
    case Beginning =>
      // a session that was not torn down may still be there
      if a.fault.NoFault? then plain.(world := w.(overlay := Some(if a.choice then w.Candidate() else w.active)))
      else plain
    case Deleting(k) => if k < |r.plan.deletes| then DeleteReply(w, r.plan.deletes[k], a) else plain
    case Setting(k) => if k < |r.plan.sets| then SetReply(schema, w, r.plan.sets[k], a) else plain
    case Committing =>
      if a.fault.NoFault? then plain.(world := w.(active := w.Candidate(), commits := w.commits + [me])) else plain
    case Saving => if a.fault.NoFault? then plain.(world := w.(boot := w.active)) else plain
    case Discarding(_) => plain.(world := w.(overlay := Some(if a.fault.NoFault? then w.active else a.wreck)))
    case Closing => if a.fault.NoFault? then plain.(world := w.(overlay := None)) else plain
    case Releasing =>
      // released by the unlock or, if that fails, by closing the file
      if a.fault.NoFault? || a.choice then plain.(world := w.(lock := None)) else plain
    case Done => plain
  }

  // ---- the effect of a step on the run itself ----

  // No step changes the plan, and none but the arrival of a cancellation its flag.
  predicate SameRun(r: Run, r': Run) {
    r'.plan == r.plan && r'.canceled == r.canceled
  }

  function Fail(r: Run, code: Code, pc: Pc): (r': Run)
    ensures SameRun(r, r')
  {
    r.(outcome := Failed(code, []), pc := pc)
  }

  // A failing cleanup step is appended to an earlier error, or becomes the error.
  function Append(r: Run, fault: Fault, op: Op): (r': Run)
    ensures SameRun(r, r')
  {
    if fault.NoFault? then r
    else if r.outcome.Success? then r.(outcome := Failed(ExecutorFailed, []))
    else r.(outcome := Failed(r.outcome.code, r.outcome.notes + [op]))
  }

  function ToCommitted(r: Run): (r': Run)
    ensures SameRun(r, r')
  {
    r.(committed := true, applied := true, pc := if r.plan.save then Saving else Closing)
  }

  function ToSet(r: Run, k: nat): (r': Run)
    ensures SameRun(r, r')
  {
    if k < |r.plan.sets| then r.(pc := Setting(k))
    else if r.plan.commit then r.(pc := Committing)
    else ToCommitted(r)
  }

  function ToDelete(r: Run, k: nat): (r': Run)
    ensures SameRun(r, r')
  {
    if k < |r.plan.deletes| then r.(pc := Deleting(k)) else ToSet(r, 0)
  }

  // A failed delete, set or commit: context errors leave the discard to the
  // deferred cleanup, all others discard at once.
  function Abort(r: Run, fault: Fault, code: Code): (r': Run)
    ensures SameRun(r, r')
  {
    if fault.ContextFault? then Fail(r, ExecutorFailed, Discarding(false)) else Fail(r, code, Discarding(true))
  }

  function AfterLock(r: Run, reply: Reply): (r': Run)
    ensures SameRun(r, r')
  {
    var r := Log(r, Lock, reply);
    if reply.fault.NoFault? then r.(pc := Beginning) else Fail(r, ExecutorFailed, Done)
  }

  function AfterBegin(r: Run, reply: Reply): (r': Run)
    ensures SameRun(r, r')
  {
    var r := Log(r, Begin, reply);
    if reply.fault.NoFault? then ToDelete(r.(base := reply.world.Candidate()), 0)
    else Fail(r, ExecutorFailed, Releasing)
  }

  function AfterDelete(r: Run, k: nat, reply: Reply): (r': Run)
    ensures SameRun(r, r')
  {
    var r := Log(r, Delete(k), reply);
    if reply.fault.NoFault? || reply.fault.MissingNode? then ToDelete(r, k + 1)
    else Abort(r, reply.fault, DeleteFailed)
  }

  function AfterSet(r: Run, k: nat, reply: Reply): (r': Run)
    ensures SameRun(r, r')
  {
    var r := Log(r, Set(k), reply);
    if reply.fault.NoFault? then ToSet(r, k + 1) else Abort(r, reply.fault, SetFailed)
  }

  function AfterCommit(r: Run, reply: Reply): (r': Run)
    ensures SameRun(r, r')
  {
    var r := Log(r, Commit, reply);
    if reply.fault.NoFault? then ToCommitted(r) else Abort(r, reply.fault, CommitFailed)
  }

  function AfterSave(r: Run, reply: Reply): (r': Run)
    ensures SameRun(r, r')
  {
    var r := Log(r, Save, reply);
    if reply.fault.NoFault? then r.(saved := true, pc := Closing)
    else Fail(r, if reply.fault.ContextFault? then ExecutorFailed else SaveFailed, Closing)
  }

  function AfterDiscard(r: Run, explicit: bool, reply: Reply): (r': Run)
    ensures SameRun(r, r')
  {
    var r := Log(r, Discard(explicit), reply).(discarded := true);
    Append(r, reply.fault, Discard(explicit)).(pc := Closing)
  }

  function AfterClose(r: Run, reply: Reply): (r': Run)
    ensures SameRun(r, r')
  {
    Append(Log(r, Close, reply), reply.fault, Close).(pc := Releasing)
  }

  function AfterRelease(r: Run, reply: Reply): (r': Run)
    ensures SameRun(r, r')
  {
    Append(Log(r, Release, reply), reply.fault, Release).(pc := Done)
  }

  function Advance(r: Run, reply: Reply): (r': Run)
    ensures SameRun(r, r')
  {
    match r.pc
    case Start => r.(pc := Locking)
    case Locking => AfterLock(r, reply)
    case Beginning => AfterBegin(r, reply)
    case Deleting(k) => AfterDelete(r, k, reply)
    case Setting(k) => AfterSet(r, k, reply)
    case Committing => AfterCommit(r, reply)
    case Saving => AfterSave(r, reply)
    case Discarding(explicit) => AfterDiscard(r, explicit, reply)
    case Closing => AfterClose(r, reply)
    case Releasing => AfterRelease(r, reply)
    case Done => r
  }

  function Log(r: Run, op: Op, reply: Reply): (r': Run)
    ensures SameRun(r, r')
  {
    r.(trace := Then(r.trace, Event(op, reply.fault, reply.output)))
  }

  // checkExecutionContext fails
  function Interrupt(r: Run): (r': Run)
    ensures SameRun(r, r')
  {
    var r := r.(trace := Then(r.trace, Event(Check, ContextFault(""), "")));
    Fail(r, ExecutorFailed,
      match r.pc case Start => Done case Saving => Closing case _ => Discarding(false))
  }

  // The lock attempt ends because the context was canceled while waiting.
  function GiveUp(r: Run): (r': Run)
    ensures SameRun(r, r')
  {
    Fail(r.(trace := Then(r.trace, Event(Lock, ContextFault(""), ""))), ExecutorFailed, Done)
  }

  predicate Polls(pc: Pc) {
    pc.Start? || pc.Deleting? || pc.Setting? || pc.Committing? || pc.Saving?
  }

  function Step(schema: C.Schema, me: nat, r: Run, w: World, a: Answer): (Run, World) {
    var r := r.(canceled := r.canceled || a.cancel);
    if r.pc.Done? then (r, w)
    else if Polls(r.pc) && r.canceled then (Interrupt(r), w)
    else if r.pc.Locking? && a.fault.NoFault? && w.lock.Some? then
      (if r.canceled && a.choice then GiveUp(r) else r, w)
    else
      var reply := Perform(schema, me, r, w, a);
      (Advance(r, reply), reply.world)
  }

  // One turn of a run, in whatever world the others have made.
  datatype Turn = Turn(world: World, answer: Answer)

  // The run after some turns, under arbitrary interference on the shared world.
  function Behave(schema: C.Schema, me: nat, plan: Plan, turns: seq<Turn>): Run {
    if turns == [] then Fresh(plan)
    else
      var n := |turns| - 1;
      Step(schema, me, Behave(schema, me, plan, turns[..n]), turns[n].world, turns[n].answer).0
  }
}
