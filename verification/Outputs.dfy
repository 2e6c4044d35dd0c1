// What the executor reports of the device's outputs.
module Outputs {
  import opened Wrappers
  import C = Config
  import Text
  import RunProperties
  import opened Transaction
  import opened Histories

  // The outputs of the deletes or of the sets of a run, trimmed, blank ones dropped.
  function OutputsOf(t: Trace, wanted: Op -> bool): seq<string> {
    match t
    case Nothing => []
    case Then(front, last) =>
      var trimmed := Text.TrimSpace(last.output);
      if wanted(last.op) && trimmed != "" then OutputsOf(front, wanted) + [trimmed] else OutputsOf(front, wanted)
  }

  predicate IsDelete(op: Op) {
    op.Delete?
  }

  predicate IsSet(op: Op) {
    op.Set?
  }

  // Texts that are not blank.
  predicate Solid(texts: seq<string>) {
    forall i | 0 <= i < |texts| :: texts[i] != "" && !Text.IsSpace(texts[i][0])
  }

  lemma {:induction false} OutputsSolid(t: Trace, wanted: Op -> bool)
    ensures Solid(OutputsOf(t, wanted))
  {
    if t.Then? {
      OutputsSolid(t.front, wanted);
      Text.TrimSpaceShape(t.last.output);
    }
  }

  lemma JoinNotBlank(texts: seq<string>)
    requires Solid(texts)
    ensures Text.TrimSpace(Text.Join(texts, '\n')) == "" <==> texts == []
  {
    if texts != [] {
      Text.TrimSpaceNonEmpty(Text.Join(texts, '\n'));
    }
  }

  // appendOutput adds one more line to joined outputs, unless it is blank.
  lemma AppendJoins(texts: seq<string>, next: string)
    requires Solid(texts)
    ensures var trimmed := Text.TrimSpace(next);
      AppendOutput(Text.Join(texts, '\n'), next) == Text.Join(if trimmed == "" then texts else texts + [trimmed], '\n')
  {
    JoinNotBlank(texts);
    if texts != [] {
      Text.JoinAppend(texts, Text.TrimSpace(next), '\n');
    }
  }

  lemma OneMoreDelete(front: Trace, last: Event)
    ensures var before, after := Reported(front).deleteOutput, Reported(Then(front, last)).deleteOutput;
      after == if last.op.Delete? then AppendOutput(before, last.output) else before
  {
  }

  lemma OneMoreSet(front: Trace, last: Event)
    ensures var before, after := Reported(front).setOutput, Reported(Then(front, last)).setOutput;
      after == if last.op.Set? then AppendOutput(before, last.output) else before
  {
  }

  lemma OneMoreOutput(front: Trace, last: Event, wanted: Op -> bool, joined: string)
    requires joined == Text.Join(OutputsOf(front, wanted), '\n')
    ensures Text.Join(OutputsOf(Then(front, last), wanted), '\n')
      == if wanted(last.op) then AppendOutput(joined, last.output) else joined
  {
    OutputsSolid(front, wanted);
    AppendJoins(OutputsOf(front, wanted), last.output);
  }

  lemma {:induction false} OutputsJoined(t: Trace)
    ensures Reported(t).deleteOutput == Text.Join(OutputsOf(t, IsDelete), '\n')
    ensures Reported(t).setOutput == Text.Join(OutputsOf(t, IsSet), '\n')
  {
    if t.Then? {
      OutputsJoined(t.front);
      OneMoreDelete(t.front, t.last);
      OneMoreSet(t.front, t.last);
      OneMoreOutput(t.front, t.last, IsDelete, Reported(t.front).deleteOutput);
      OneMoreOutput(t.front, t.last, IsSet, Reported(t.front).setOutput);
    }
  }

  // The delete and set outputs of a result are the non-blank outputs of its deletes
  // and sets, trimmed, one per line, in order.
  lemma OutputsReported(r: Run)
    ensures ResultOf(r).deleteOutput == Text.Join(OutputsOf(r.trace, IsDelete), '\n')
    ensures ResultOf(r).setOutput == Text.Join(OutputsOf(r.trace, IsSet), '\n')
  {
    OutputsJoined(r.trace);
  }

  // ---- commit, save and discard ----

  // The latest call of a kind.
  function LastOf(t: Trace, wanted: Op -> bool): Option<Event> {
    if t.Nothing? then None else if wanted(t.last.op) then Some(t.last) else LastOf(t.front, wanted)
  }

  predicate IsCommit(op: Op) {
    op.Commit?
  }

  predicate IsSave(op: Op) {
    op.Save?
  }

  predicate IsDiscard(op: Op) {
    op.Discard?
  }

  function OutputOf(e: Option<Event>): string {
    if e.Some? then e.value.output else ""
  }

  lemma {:induction false} CommitReported(t: Trace)
    ensures Reported(t).commitOutput == OutputOf(LastOf(t, IsCommit))
  {
    if t.Then? {
      CommitReported(t.front);
    }
  }

  lemma {:induction false} SaveReported(t: Trace)
    ensures Reported(t).saveOutput == OutputOf(LastOf(t, IsSave))
  {
    if t.Then? {
      SaveReported(t.front);
    }
  }

  function OwnLine(output: string): string {
    if output == "" then "" else output + "\n"
  }

  // What is reported of a discard: its output, and that it failed if it was explicit;
  // the output of a deferred one is trimmed.
  ghost predicate Tells(e: Event, text: string) {
    match (e.op, e.fault)
    case (Discard(false), _) => text == Text.TrimSpace(e.output)
    case (_, OtherFault(reason)) => text == OwnLine(e.output) + "discard failed: " + reason
    case (_, ContextFault(reason)) => text == OwnLine(e.output) + "discard failed: " + reason
    case _ => text == e.output
  }

  lemma Note(output: string, reason: string, note: string, line: string)
    requires note == "discard failed: " && line == "\ndiscard failed: " && line == "\n" + note
    ensures WithNote(output, reason) == OwnLine(output) + note + reason
  {
    if output != "" {
      assert output + "\n" + note == output + line;
    } else {
      assert "" + note == note;
    }
  }

  lemma ImplicitTells(e: Event)
    requires e.op == Discard(false)
    ensures DiscardText(false, "", e) == Text.TrimSpace(e.output)
  {
  }

  lemma ExplicitTells(e: Event)
    requires e.op == Discard(true)
    ensures DiscardText(true, "", e)
      == match e.fault
         case OtherFault(reason) => WithNote(e.output, reason)
         case ContextFault(reason) => WithNote(e.output, reason)
         case _ => e.output
  {
  }

  lemma DiscardTells(e: Event)
    requires e.op.Discard?
    ensures Tells(e, DiscardText(e.op.explicit, "", e))
  {
    match (e.op, e.fault)
    case (Discard(false), _) => ImplicitTells(e);
    case (_, OtherFault(reason)) => NoteTells(e, reason);
    case (_, ContextFault(reason)) => NoteTells(e, reason);
    case _ => ExplicitTells(e);
  }

  lemma NoteTells(e: Event, reason: string)
    requires e.op == Discard(true) && (e.fault == OtherFault(reason) || e.fault == ContextFault(reason))
    ensures DiscardText(true, "", e) == OwnLine(e.output) + "discard failed: " + reason
  {
    assert "\ndiscard failed: " == "\n" + "discard failed: ";
    Note(e.output, reason, "discard failed: ", "\ndiscard failed: ");
  }

  lemma {:induction false} NoDiscard(t: Trace)
    requires RunProperties.Counts(t).discards == 0
    ensures Reported(t).discardOutput == "" && LastOf(t, IsDiscard).None?
  {
    if t.Then? {
      NoDiscard(t.front);
    }
  }

  lemma {:induction false} DiscardReported(t: Trace)
    requires RunProperties.Counts(t).discards <= 1
    ensures LastOf(t, IsDiscard).None? ==> Reported(t).discardOutput == ""
    ensures LastOf(t, IsDiscard).Some? ==> Tells(LastOf(t, IsDiscard).value, Reported(t).discardOutput)
  {
    if t.Then? {
      if t.last.op.Discard? {
        NoDiscard(t.front);
        DiscardTells(t.last);
      } else {
        DiscardReported(t.front);
      }
    }
  }

  // The other outputs of a complete run: those of its commit, its save and its discard.
  lemma EndsReported(schema: C.Schema, me: nat, plan: Plan, turns: seq<Turn>)
    requires Behave(schema, me, plan, turns).pc.Done?
    ensures var r := Behave(schema, me, plan, turns);
      && ResultOf(r).commitOutput == OutputOf(LastOf(r.trace, IsCommit))
      && ResultOf(r).saveOutput == OutputOf(LastOf(r.trace, IsSave))
      && (LastOf(r.trace, IsDiscard).None? ==> ResultOf(r).discardOutput == "")
      && (LastOf(r.trace, IsDiscard).Some? ==>
            Tells(LastOf(r.trace, IsDiscard).value, ResultOf(r).discardOutput))
  {
    var r := Behave(schema, me, plan, turns);
    CommitReported(r.trace);
    SaveReported(r.trace);
    RunProperties.RunLanguage(schema, me, plan, turns);
    if !RunProperties.Succeeded(r.trace, Op.Begin) {
      assert RunProperties.Counts(r.trace).discards == 0;
    }
    DiscardReported(r.trace);
  }
}
