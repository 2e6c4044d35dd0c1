// Executions of one run under a script of device answers, and the result and
// outputs that the executor reports for them.
module Histories {
  import opened Wrappers
  import C = Config
  import Text
  import opened Transaction

  // ---- the environment ----

  // How a device command ends.
  datatype DeviceError = Fine | ContextError(text: string) | OtherError(text: string)

  // The answer to the next call, whether the context is canceled before it, and, if
  // the run waits for the lock, the world that the other runs leave.
  datatype DeviceAnswer = DeviceAnswer(
    cancel: bool, error: DeviceError, output: string, wreck: C.Config, choice: bool, others: World)

  function FaultOf(error: DeviceError): Fault {
    match error
    case Fine => NoFault
    case ContextError(text) => ContextFault(text)
    case OtherError(text) => OtherFault(text)
  }

  predicate IsMissingDeleteOutput(output: string) {
    var normalized := Text.ToLower(output);
    || Text.Contains(normalized, "nothing to delete")
    || Text.Contains(normalized, "specified node does not exist")
    || Text.Contains(normalized, "does not exist")
  }

  // The executor looks at the output of a delete only if the delete failed, and
  // before it looks at the kind of the error.
  function Classify(error: DeviceError, output: string): Fault {
    if !error.Fine? && IsMissingDeleteOutput(output) then MissingNode else FaultOf(error)
  }

  lemma NothingMissing()
    ensures !IsMissingDeleteOutput("")
  {
  }

  // ---- which outputs tell of a missing node ----

  const NOTHING := "nothing to delete"
  const ABSENT := "does not exist"

  // A text that reads as the phrase, whatever letters are capitals.
  ghost predicate Reads(text: string, phrase: string) {
    |text| == |phrase| && forall i | 0 <= i < |text| :: Text.ReadsAs(text[i], phrase[i])
  }

  ghost predicate Mentions(output: string, phrase: string) {
    exists i, j | 0 <= i <= j <= |output| :: Reads(output[i..j], phrase)
  }

  // Somewhere it says that there is nothing to delete, or that something does not exist.
  ghost predicate TellsMissing(output: string) {
    Mentions(output, NOTHING) || Mentions(output, ABSENT)
  }

  lemma ReadsLower(text: string, phrase: string)
    ensures Text.ToLower(text) == phrase <==> Reads(text, phrase)
  {
    forall i | 0 <= i < |text| && i < |phrase|
      ensures Text.LowerChar(text[i]) == phrase[i] <==> Text.ReadsAs(text[i], phrase[i])
    {
      Text.LowerExactly(text[i], phrase[i]);
    }
    if Text.ToLower(text) == phrase {
      assert forall i | 0 <= i < |text| :: Text.ToLower(text)[i] == phrase[i];
    }
  }

  lemma ContainsMentions(output: string, phrase: string)
    ensures Text.Contains(Text.ToLower(output), phrase) <==> Mentions(output, phrase)
  {
    var lower := Text.ToLower(output);
    Text.ContainsExactly(lower, phrase);
    forall i, j | 0 <= i <= j <= |output|
      ensures lower[i..j] == phrase <==> Reads(output[i..j], phrase)
    {
      assert lower[i..j] == Text.ToLower(output[i..j]);
      ReadsLower(output[i..j], phrase);
    }
  }

  lemma {:induction false} ContainsPart(s: string, a: string, b: string)
    requires Text.Contains(s, a + b)
    ensures Text.Contains(s, b)
  {
    Text.ContainsExactly(s, a + b);
    var i, j :| 0 <= i <= j <= |s| && s[i..j] == a + b;
    assert s[i + |a|..j] == s[i..j][|a|..] == b;
    Text.ContainsExactly(s, b);
  }

  // Exactly these outputs are tolerated.
  lemma MissingExactly(output: string)
    ensures IsMissingDeleteOutput(output) <==> TellsMissing(output)
  {
    ContainsMentions(output, NOTHING);
    ContainsMentions(output, ABSENT);
    SpecifiedNode(Text.ToLower(output));
  }

  lemma SpecifiedNode(lower: string)
    ensures Text.Contains(lower, "specified node does not exist") ==> Text.Contains(lower, ABSENT)
  {
    var whole := "specified node does not exist";
    assert "specified node " + ABSENT == whole;
    if Text.Contains(lower, whole) {
      ContainsPart(lower, "specified node ", ABSENT);
    }
  }

  // A delete that fails is a missing node exactly if its output says so, wherever and in
  // whatever capitals.
  lemma ClassifyExactly(error: DeviceError, output: string)
    ensures Classify(error, output) == MissingNode <==> !error.Fine? && TellsMissing(output)
    ensures Classify(error, output) != MissingNode ==> Classify(error, output) == FaultOf(error)
  {
    MissingExactly(output);
  }

  lemma MissingAnywhere(before: string, text: string, after: string, error: DeviceError)
    requires !error.Fine? && (Reads(text, NOTHING) || Reads(text, ABSENT))
    ensures Classify(error, before + text + after) == MissingNode
  {
    var output := before + text + after;
    assert output[|before|..|before| + |text|] == text;
    ClassifyExactly(error, output);
  }

  // A delete does not stop the run: it reaches the device, and succeeds or is of a
  // missing node.
  ghost predicate Tolerated(d: DeviceAnswer, command: Option<C.Path>) {
    command.Some? && (d.error.Fine? || TellsMissing(d.output))
  }

  // What a step of the machine makes of an answer of the device.
  function Interpret(pc: Pc, d: DeviceAnswer): Answer {
    var fault := if pc.Deleting? then Classify(d.error, d.output) else FaultOf(d.error);
    Answer(d.cancel, fault, d.output, d.wreck, d.choice)
  }

  // What one execution is given: the device's schema, the run's number, its plan,
  // the shared world on entry, and the environment's answers.
  datatype Env = Env(schema: C.Schema, me: nat, plan: Plan, first: World, script: nat -> DeviceAnswer)

  // The states of an execution, one step after the other.
  type History = seq<(Run, World)>

  function Last(h: History): (Run, World)
    requires h != []
  {
    h[|h| - 1]
  }

  // The run waits for a lock that another run holds.
  predicate Waits(r: Run, w: World, d: DeviceAnswer) {
    r.pc.Locking? && d.error.Fine? && w.lock.Some? && !((r.canceled || d.cancel) && d.choice)
  }

  // A step of an execution.  The world is the run's own but for the time it waits:
  // whoever holds the lock is the only one to change it.
  function After(env: Env, k: nat, r: Run, w: World): (Run, World) {
    var d := env.script(k);
    var (r', w') := Step(env.schema, env.me, r, w, Interpret(r.pc, d));
    (r', if Waits(r, w, d) then d.others else w')
  }

  ghost predicate Linked(env: Env, h: History, k: nat)
    requires k + 1 < |h|
  {
    h[k + 1] == After(env, k, h[k].0, h[k].1)
  }

  ghost predicate IsHistory(env: Env, h: History) {
    && h != [] && h[0] == (Fresh(env.plan), env.first)
    && forall k | 0 <= k < |h| - 1 :: Linked(env, h, k)
  }

  // The answer to the next step, and the run as it enters that step.
  function Next(env: Env, h: History): DeviceAnswer
    requires h != []
  {
    env.script(|h| - 1)
  }

  function Now(env: Env, h: History): Run
    requires h != []
  {
    var r := Last(h).0;
    r.(canceled := r.canceled || Next(env, h).cancel)
  }

  lemma Extend(env: Env, h: History, next: (Run, World))
    requires IsHistory(env, h)
    requires next == After(env, |h| - 1, Last(h).0, Last(h).1)
    ensures IsHistory(env, h + [next])
  {
    var h' := h + [next];
    forall k | 0 <= k < |h'| - 1
      ensures Linked(env, h', k)
    {
      if k < |h| - 1 {
        assert Linked(env, h, k);
      }
    }
  }

  lemma ExtendBegin(env: Env, h: History, w': World)
    requires IsHistory(env, h) && Last(h).0.pc.Beginning?
    requires var w, d := Last(h).1, Next(env, h);
      w' ==
        if d.error.Fine? then w.(overlay := Some(if d.choice then w.Candidate() else w.active)) else w
    ensures var d := Next(env, h);
      IsHistory(env, h + [(AfterBegin(Now(env, h), Reply(FaultOf(d.error), d.output, w')), w')])
  {
    Extend(env, h, (AfterBegin(Now(env, h), Reply(FaultOf(Next(env, h).error), Next(env, h).output, w')), w'));
  }

  lemma ExtendCommit(env: Env, h: History, w': World)
    requires IsHistory(env, h) && Last(h).0.pc.Committing? && !Now(env, h).canceled
    requires var w, d := Last(h).1, Next(env, h);
      w' == if d.error.Fine? then w.(active := w.Candidate(), commits := w.commits + [env.me]) else w
    ensures var d := Next(env, h);
      IsHistory(env, h + [(AfterCommit(Now(env, h), Reply(FaultOf(d.error), d.output, w')), w')])
  {
    Extend(env, h, (AfterCommit(Now(env, h), Reply(FaultOf(Next(env, h).error), Next(env, h).output, w')), w'));
  }

  lemma ExtendSave(env: Env, h: History, w': World)
    requires IsHistory(env, h) && Last(h).0.pc.Saving? && !Now(env, h).canceled
    requires var w, d := Last(h).1, Next(env, h);
      w' == if d.error.Fine? then w.(boot := w.active) else w
    ensures var d := Next(env, h);
      IsHistory(env, h + [(AfterSave(Now(env, h), Reply(FaultOf(d.error), d.output, w')), w')])
  {
    Extend(env, h, (AfterSave(Now(env, h), Reply(FaultOf(Next(env, h).error), Next(env, h).output, w')), w'));
  }

  lemma ExtendDiscard(env: Env, h: History, explicit: bool, w': World)
    requires IsHistory(env, h) && Last(h).0.pc == Discarding(explicit)
    requires var w, d := Last(h).1, Next(env, h); w' == w.(overlay := Some(if d.error.Fine? then w.active else d.wreck))
    ensures var d := Next(env, h);
      IsHistory(env, h + [(AfterDiscard(Now(env, h), explicit, Reply(FaultOf(d.error), d.output, w')), w')])
  {
    var d := Next(env, h);
    Extend(env, h, (AfterDiscard(Now(env, h), explicit, Reply(FaultOf(d.error), d.output, w')), w'));
  }

  lemma ExtendClose(env: Env, h: History, w': World)
    requires IsHistory(env, h) && Last(h).0.pc.Closing?
    requires var w, d := Last(h).1, Next(env, h);
      w' == if d.error.Fine? then w.(overlay := None) else w
    ensures var d := Next(env, h);
      IsHistory(env, h + [(AfterClose(Now(env, h), Reply(FaultOf(d.error), d.output, w')), w')])
  {
    Extend(env, h, (AfterClose(Now(env, h), Reply(FaultOf(Next(env, h).error), Next(env, h).output, w')), w'));
  }

  lemma ExtendRelease(env: Env, h: History, w': World)
    requires IsHistory(env, h) && Last(h).0.pc.Releasing?
    requires var w, d := Last(h).1, Next(env, h);
      w' == if d.error.Fine? || d.choice then w.(lock := None) else w
    ensures var d := Next(env, h);
      IsHistory(env, h + [(AfterRelease(Now(env, h), Reply(FaultOf(d.error), d.output, w')), w')])
  {
    Extend(env, h, (AfterRelease(Now(env, h), Reply(FaultOf(Next(env, h).error), Next(env, h).output, w')), w'));
  }

  lemma ExtendStart(env: Env, h: History)
    requires IsHistory(env, h) && Last(h).0.pc.Start? && !Now(env, h).canceled
    ensures IsHistory(env, h + [(Now(env, h).(pc := Locking), Last(h).1)])
  {
    Extend(env, h, (Now(env, h).(pc := Locking), Last(h).1));
  }

  lemma ExtendCheck(env: Env, h: History)
    requires IsHistory(env, h) && Polls(Last(h).0.pc) && Now(env, h).canceled
    ensures IsHistory(env, h + [(Interrupt(Now(env, h)), Last(h).1)])
  {
    Extend(env, h, (Interrupt(Now(env, h)), Last(h).1));
  }

  // The lock is free, or the attempt fails.
  lemma ExtendLock(env: Env, h: History, w': World)
    requires IsHistory(env, h) && Last(h).0.pc.Locking? && (Next(env, h).error.Fine? ==> Last(h).1.lock.None?)
    requires var w, d := Last(h).1, Next(env, h);
      w' == if d.error.Fine? then w.(lock := Some(env.me)) else w
    ensures var d := Next(env, h);
      IsHistory(env, h + [(AfterLock(Now(env, h), Reply(FaultOf(d.error), d.output, w')), w')])
  {
    var d := Next(env, h);
    Extend(env, h, (AfterLock(Now(env, h), Reply(FaultOf(d.error), d.output, w')), w'));
  }

  // The lock is held by another run.
  lemma ExtendWait(env: Env, h: History)
    requires IsHistory(env, h) && Last(h).0.pc.Locking? && Next(env, h).error.Fine? && Last(h).1.lock.Some?
    ensures var now, w, d := Now(env, h), Last(h).1, Next(env, h);
      IsHistory(env, h + [if now.canceled && d.choice then (GiveUp(now), w) else (now, d.others)])
  {
    var now, w, d := Now(env, h), Last(h).1, Next(env, h);
    Extend(env, h, if now.canceled && d.choice then (GiveUp(now), w) else (now, d.others));
  }

  // The reply to a delete or set command of the given path.
  function DeleteAnswer(w: World, command: Option<C.Path>, d: DeviceAnswer): Reply {
    DeleteReply(w, command, Interpret(Deleting(0), d))
  }

  function SetAnswer(schema: C.Schema, w: World, command: Option<C.Path>, d: DeviceAnswer): Reply {
    SetReply(schema, w, command, Interpret(Setting(0), d))
  }

  lemma ExtendDelete(env: Env, h: History, k: nat)
    requires IsHistory(env, h) && Last(h).0.pc == Deleting(k) && !Now(env, h).canceled
    requires Last(h).0.plan == env.plan && k < |env.plan.deletes|
    ensures var reply := DeleteAnswer(Last(h).1, env.plan.deletes[k], Next(env, h));
      IsHistory(env, h + [(AfterDelete(Now(env, h), k, reply), reply.world)])
  {
    var reply := DeleteAnswer(Last(h).1, env.plan.deletes[k], Next(env, h));
    Extend(env, h, (AfterDelete(Now(env, h), k, reply), reply.world));
  }

  lemma ExtendSet(env: Env, h: History, k: nat)
    requires IsHistory(env, h) && Last(h).0.pc == Setting(k) && !Now(env, h).canceled
    requires Last(h).0.plan == env.plan && k < |env.plan.sets|
    ensures var reply := SetAnswer(env.schema, Last(h).1, env.plan.sets[k], Next(env, h));
      IsHistory(env, h + [(AfterSet(Now(env, h), k, reply), reply.world)])
  {
    var reply := SetAnswer(env.schema, Last(h).1, env.plan.sets[k], Next(env, h));
    Extend(env, h, (AfterSet(Now(env, h), k, reply), reply.world));
  }

  // The turns of the run in an execution.
  function Turns(env: Env, h: History): seq<Turn>
    requires h != []
  {
    seq(|h| - 1, k requires 0 <= k < |h| - 1 => Turn(h[k].1, Interpret(h[k].0.pc, env.script(k))))
  }

  // An execution is a behaviour of the run, so all that runs keep holds of it.
  lemma {:induction false} HistoryBehaves(env: Env, h: History)
    requires IsHistory(env, h)
    ensures Last(h).0 == Behave(env.schema, env.me, env.plan, Turns(env, h))
  {
    if |h| > 1 {
      var n := |h| - 2;
      var before := h[..n + 1];
      forall k | 0 <= k < |before| - 1
        ensures Linked(env, before, k)
      {
        assert Linked(env, h, k);
      }
      HistoryBehaves(env, before);
      assert Turns(env, h)[..n] == Turns(env, before);
      assert Linked(env, h, n);
    }
  }

  // ---- the result ----

  datatype ExecutionResult = ExecutionResult(
    applied: bool, saved: bool, deleteOutput: string, setOutput: string,
    commitOutput: string, saveOutput: string, discardOutput: string)

  const NO_RESULT := ExecutionResult(false, false, "", "", "", "", "")

  function AppendOutput(existing: string, next: string): string {
    var trimmed := Text.TrimSpace(next);
    if trimmed == "" then existing
    else if Text.TrimSpace(existing) == "" then trimmed
    else existing + "\n" + trimmed
  }

  // The discard output that discardAfterFailure reports.
  function DiscardReport(fault: Fault, output: string): string {
    match fault
    case ContextFault(text) => WithNote(output, text)
    case OtherFault(text) => WithNote(output, text)
    case _ => output
  }

  function WithNote(output: string, text: string): string {
    if output == "" then "discard failed: " + text else output + "\ndiscard failed: " + text
  }

  // The result that a sequence of calls amounts to.
  function Reported(t: Trace): ExecutionResult {
    match t
    case Nothing => NO_RESULT
    case Then(front, last) =>
      var r := Reported(front);
      match last.op
      case Delete(_) => r.(deleteOutput := AppendOutput(r.deleteOutput, last.output))
      case Set(_) => r.(setOutput := AppendOutput(r.setOutput, last.output))
      case Commit => r.(commitOutput := last.output)
      case Save => r.(saveOutput := last.output)
      case Discard(explicit) => r.(discardOutput := DiscardText(explicit, r.discardOutput, last))
      case _ => r
  }

  // The discard output after a discard.
  function DiscardText(explicit: bool, existing: string, last: Event): string {
    if explicit then DiscardReport(last.fault, last.output) else AppendOutput(existing, last.output)
  }

  function ResultOf(r: Run): ExecutionResult {
    Reported(r.trace).(applied := r.applied, saved := r.saved)
  }

  lemma DeleteReported(r: Run, k: nat, reply: Reply)
    ensures Reported(Log(r, Op.Delete(k), reply).trace)
      == Reported(r.trace).(deleteOutput := AppendOutput(Reported(r.trace).deleteOutput, reply.output))
  {
  }

  lemma LateDiscardAppends(existing: string, last: Event)
    ensures DiscardText(false, existing, last) == AppendOutput(existing, last.output)
  {
  }

  lemma DiscardLogged(t: Trace, last: Event)
    requires last.op == Op.Discard(false)
    ensures Reported(Then(t, last))
      == Reported(t).(discardOutput := DiscardText(false, Reported(t).discardOutput, last))
  {
  }

  lemma DiscardTraced(r: Run, reply: Reply)
    ensures AfterDiscard(r, false, reply).trace == Then(r.trace, Event(Op.Discard(false), reply.fault, reply.output))
    ensures AfterDiscard(r, false, reply).applied == r.applied && AfterDiscard(r, false, reply).saved == r.saved
  {
  }

  lemma DiscardReported(r: Run, reply: Reply)
    ensures
      var last := Event(Op.Discard(false), reply.fault, reply.output);
      var text := DiscardText(false, Reported(r.trace).discardOutput, last);
      ResultOf(AfterDiscard(r, false, reply)) == ResultOf(r).(discardOutput := text)
  {
    DiscardTraced(r, reply);
    DiscardLogged(r.trace, Event(Op.Discard(false), reply.fault, reply.output));
  }
}
