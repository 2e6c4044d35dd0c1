// What every run of the executor keeps, whatever the device answers, whenever
// the context is canceled and whatever other runs do in between.
module RunProperties {
  import opened Wrappers
  import C = Config
  import opened Transaction

  // ---- the error of a run, from its calls ----

  // The code a failing call stands for; None if it did not fail or was tolerated.
  function FailCode(e: Event): Option<Code> {
    match e.fault
    case NoFault => None
    case ContextFault(_) => Some(ExecutorFailed)
    case _ =>
      match e.op
      case Delete(_) => if e.fault.MissingNode? then None else Some(DeleteFailed)
      case Set(_) => Some(SetFailed)
      case Commit => Some(CommitFailed)
      case Save => Some(SaveFailed)
      case _ => Some(ExecutorFailed)
  }

  // The code of the first failing call.
  function Primary(t: Trace): Option<Code> {
    match t
    case Nothing => None
    case Then(front, last) => if Primary(front).Some? then Primary(front) else FailCode(last)
  }

  // The calls that failed after the first failing one.
  function Later(t: Trace): seq<Op> {
    match t
    case Nothing => []
    case Then(front, last) =>
      if Primary(front).Some? && FailCode(last).Some? then Later(front) + [last.op] else Later(front)
  }

  function ErrorOf(t: Trace): Outcome {
    match Primary(t)
    case None => Success
    case Some(code) => Failed(code, Later(t))
  }

  // ---- the calls of a run, as a language ----

  predicate Ends(t: Trace, op: Op) {
    t.Then? && t.last.op == op
  }

  // The last call is op, and it did not fail.
  predicate Did(t: Trace, op: Op) {
    Ends(t, op) && FailCode(t.last).None?
  }

  // Lock, begin, the first d deletes and the first s sets in order, none failing.
  predicate Calls(t: Trace, d: nat, s: nat) {
    if s > 0 then Did(t, Set(s - 1)) && Calls(t.front, d, s - 1)
    else if d > 0 then Did(t, Delete(d - 1)) && Calls(t.front, d - 1, 0)
    else Did(t, Begin) && Did(t.front, Lock) && t.front.front.Nothing?
  }

  // The call that is due after d deletes and s sets; the context is polled first.
  predicate Due(plan: Plan, d: nat, s: nat, op: Op) {
    if d < |plan.deletes| then s == 0 && (op == Check || op == Delete(d))
    else if s < |plan.sets| then d == |plan.deletes| && (op == Check || op == Set(s))
    else d == |plan.deletes| && s == |plan.sets| && plan.commit && (op == Check || op == Commit)
  }

  predicate AllCalls(plan: Plan, t: Trace) {
    Calls(t, |plan.deletes|, |plan.sets|)
  }

  // A session that ends without a commit: a due call fails.
  ghost predicate Aborted(plan: Plan, t: Trace) {
    && t.Then? && FailCode(t.last).Some?
    && exists d, s | 0 <= d <= |plan.deletes| && 0 <= s <= |plan.sets| ::
         Calls(t.front, d, s) && Due(plan, d, s, t.last.op)
  }

  predicate CommitDone(plan: Plan, t: Trace) {
    if plan.commit then Did(t, Commit) && AllCalls(plan, t.front) else AllCalls(plan, t)
  }

  // A session that commits, and then saves if asked to and not canceled.
  predicate Completed(plan: Plan, t: Trace) {
    if plan.save then (Ends(t, Save) || Ends(t, Check)) && CommitDone(plan, t.front)
    else CommitDone(plan, t)
  }

  // The session up to its teardown.
  ghost predicate Finished(plan: Plan, committed: bool, t: Trace) {
    if committed then Completed(plan, t)
    else t.Then? && t.last.op.Discard? && Aborted(plan, t.front)
  }

  predicate Refused(t: Trace, op: Op) {
    Ends(t, op) && FailCode(t.last).Some?
  }

  ghost predicate Closed(plan: Plan, committed: bool, t: Trace) {
    || (!committed && Refused(t, Begin) && Did(t.front, Lock) && t.front.front.Nothing?)
    || (Ends(t, Close) && Finished(plan, committed, t.front))
  }

  // The calls of a complete run.
  ghost predicate Whole(plan: Plan, committed: bool, t: Trace) {
    || (!committed && (Refused(t, Check) || Refused(t, Lock)) && t.front.Nothing?)
    || (Ends(t, Release) && Closed(plan, committed, t.front))
  }

  ghost predicate Shape(r: Run) {
    match r.pc
    case Start => r.trace.Nothing?
    case Locking => r.trace.Nothing?
    case Beginning => Did(r.trace, Lock) && r.trace.front.Nothing?
    case Deleting(k) => k < |r.plan.deletes| && Calls(r.trace, k, 0)
    case Setting(k) => k < |r.plan.sets| && Calls(r.trace, |r.plan.deletes|, k)
    case Committing => r.plan.commit && AllCalls(r.plan, r.trace)
    case Saving => r.plan.save && CommitDone(r.plan, r.trace)
    case Discarding(_) => Aborted(r.plan, r.trace)
    case Closing => Finished(r.plan, r.committed, r.trace)
    case Releasing => Closed(r.plan, r.committed, r.trace)
    case Done => Whole(r.plan, r.committed, r.trace)
  }

  // ---- the flags of a run, from its calls ----

  predicate Succeeded(t: Trace, op: Op) {
    t.Then? && ((t.last.op == op && t.last.fault.NoFault?) || Succeeded(t.front, op))
  }

  predicate InMainPart(pc: Pc) {
    pc.Start? || pc.Locking? || pc.Beginning? || pc.Deleting? || pc.Setting? || pc.Committing? || pc.Saving?
  }

  ghost predicate Flags(r: Run) {
    && r.applied == r.committed
    && r.saved == Succeeded(r.trace, Save)
    && (r.saved ==> r.committed && r.plan.save)
    && (r.plan.commit ==> (r.committed <==> Succeeded(r.trace, Commit)))
    && (!r.plan.commit ==> !Succeeded(r.trace, Commit))
    && (InMainPart(r.pc) ==> r.outcome.Success? && !r.discarded && (r.committed <==> r.pc.Saving?))
    && (r.pc.Discarding? ==> r.outcome.Failed? && !r.committed && !r.discarded)
    && (r.pc.Closing? ==> (r.discarded <==> !r.committed))
    && (r.committed && r.outcome.Failed? ==> r.outcome.code == ExecutorFailed || r.outcome.code == SaveFailed)
    && (r.outcome.Failed? ==> forall op | op in r.outcome.notes :: op.Discard? || op.Close? || op.Release?)
    && (r.outcome.Success? && (r.pc.Closing? || r.pc.Releasing? || r.pc.Done?) ==> r.committed)
  }

  ghost predicate Recorded(r: Run) {
    Flags(r) && r.outcome == ErrorOf(r.trace)
  }

  ghost predicate Kept(r: Run) {
    Shape(r) && Recorded(r)
  }

  // ---- every turn keeps all of it ----

  lemma {:induction false} LaterEmpty(t: Trace)
    requires Primary(t).None?
    ensures Later(t) == []
  {
    if t.Then? {
      LaterEmpty(t.front);
    }
  }

  // The three things that can happen to a run at a step.
  lemma StepCases(schema: C.Schema, me: nat, r: Run, w: World, a: Answer)
    ensures var now := r.(canceled := r.canceled || a.cancel);
      var r' := Step(schema, me, r, w, a).0;
      || r' == now
      || (Polls(r.pc) && r' == Interrupt(now))
      || (r.pc.Locking? && r' == GiveUp(now))
      || (!r.pc.Done? && r' == Advance(now, Perform(schema, me, now, w, a)))
  {
  }

  lemma ToSetShape(r: Run, k: nat)
    requires k <= |r.plan.sets| && Calls(r.trace, |r.plan.deletes|, k) && !r.committed
    ensures Shape(ToSet(r, k))
  {
    if k == |r.plan.sets| && !r.plan.commit {
      CommittedShape(r);
    }
  }

  lemma CommittedShape(r: Run)
    requires CommitDone(r.plan, r.trace)
    ensures Shape(ToCommitted(r))
  {
  }

  lemma ToDeleteShape(r: Run, k: nat)
    requires k <= |r.plan.deletes| && Calls(r.trace, k, 0) && !r.committed
    ensures Shape(ToDelete(r, k))
  {
    if k == |r.plan.deletes| {
      ToSetShape(r, 0);
    }
  }

  lemma AbortShape(r: Run, fault: Fault, code: Code, d: nat, s: nat)
    requires r.trace.Then? && FailCode(r.trace.last).Some?
    requires d <= |r.plan.deletes| && s <= |r.plan.sets|
    requires Calls(r.trace.front, d, s) && Due(r.plan, d, s, r.trace.last.op)
    ensures Shape(Abort(r, fault, code))
  {
    assert Aborted(r.plan, r.trace);
  }

  lemma LockShape(r: Run, reply: Reply)
    requires Shape(r) && r.pc.Locking? && !r.committed
    ensures Shape(AfterLock(r, reply))
  {
  }

  lemma LockRecorded(r: Run, reply: Reply)
    requires Recorded(r) && r.pc.Locking?
    ensures Recorded(AfterLock(r, reply))
  {
    LaterEmpty(r.trace);
  }

  lemma BeginShape(r: Run, reply: Reply)
    requires Shape(r) && r.pc.Beginning? && !r.committed
    ensures Shape(AfterBegin(r, reply))
  {
    var r' := Log(r, Begin, reply);
    if reply.fault.NoFault? {
      ToDeleteShape(r'.(base := reply.world.Candidate()), 0);
    }
  }

  lemma BeginRecorded(r: Run, reply: Reply)
    requires Recorded(r) && r.pc.Beginning?
    ensures Recorded(AfterBegin(r, reply))
  {
    LaterEmpty(r.trace);
  }

  lemma DeleteShape(r: Run, k: nat, reply: Reply)
    requires Shape(r) && r.pc == Deleting(k) && !r.committed
    ensures Shape(AfterDelete(r, k, reply))
  {
    var r' := Log(r, Delete(k), reply);
    if reply.fault.NoFault? || reply.fault.MissingNode? {
      ToDeleteShape(r', k + 1);
    } else {
      AbortShape(r', reply.fault, DeleteFailed, k, 0);
    }
  }

  lemma DeleteRecorded(r: Run, k: nat, reply: Reply)
    requires Recorded(r) && r.pc == Deleting(k)
    ensures Recorded(AfterDelete(r, k, reply))
  {
    LaterEmpty(r.trace);
  }

  lemma SetShape(r: Run, k: nat, reply: Reply)
    requires Shape(r) && r.pc == Setting(k) && !r.committed
    ensures Shape(AfterSet(r, k, reply))
  {
    var r' := Log(r, Set(k), reply);
    if reply.fault.NoFault? {
      ToSetShape(r', k + 1);
    } else {
      AbortShape(r', reply.fault, SetFailed, |r.plan.deletes|, k);
    }
  }

  lemma SetRecorded(r: Run, k: nat, reply: Reply)
    requires Recorded(r) && r.pc == Setting(k)
    ensures Recorded(AfterSet(r, k, reply))
  {
    LaterEmpty(r.trace);
  }

  lemma CommitShape(r: Run, reply: Reply)
    requires Shape(r) && r.pc.Committing? && !r.committed
    ensures Shape(AfterCommit(r, reply))
  {
    var r' := Log(r, Commit, reply);
    if !reply.fault.NoFault? {
      AbortShape(r', reply.fault, CommitFailed, |r.plan.deletes|, |r.plan.sets|);
    }
  }

  lemma CommitRecorded(r: Run, reply: Reply)
    requires Recorded(r) && r.pc.Committing? && r.plan.commit
    ensures Recorded(AfterCommit(r, reply))
  {
    LaterEmpty(r.trace);
  }

  lemma SaveShape(r: Run, reply: Reply)
    requires Shape(r) && r.pc.Saving? && r.committed
    ensures Shape(AfterSave(r, reply))
  {
  }

  lemma SaveRecorded(r: Run, reply: Reply)
    requires Recorded(r) && r.pc.Saving? && r.plan.save
    ensures Recorded(AfterSave(r, reply))
  {
    LaterEmpty(r.trace);
  }

  lemma DiscardShape(r: Run, explicit: bool, reply: Reply)
    requires Shape(r) && r.pc == Discarding(explicit) && !r.committed
    ensures Shape(AfterDiscard(r, explicit, reply))
  {
  }

  lemma DiscardRecorded(r: Run, explicit: bool, reply: Reply)
    requires Recorded(r) && r.pc == Discarding(explicit)
    ensures Recorded(AfterDiscard(r, explicit, reply))
  {
    if Primary(r.trace).None? {
      LaterEmpty(r.trace);
    }
  }

  lemma CloseShape(r: Run, reply: Reply)
    requires Shape(r) && r.pc.Closing?
    ensures Shape(AfterClose(r, reply))
  {
  }

  lemma CloseRecorded(r: Run, reply: Reply)
    requires Recorded(r) && r.pc.Closing?
    ensures Recorded(AfterClose(r, reply))
  {
    if Primary(r.trace).None? {
      LaterEmpty(r.trace);
    }
  }

  lemma ReleaseShape(r: Run, reply: Reply)
    requires Shape(r) && r.pc.Releasing?
    ensures Shape(AfterRelease(r, reply))
  {
  }

  lemma ReleaseRecorded(r: Run, reply: Reply)
    requires Recorded(r) && r.pc.Releasing?
    ensures Recorded(AfterRelease(r, reply))
  {
    if Primary(r.trace).None? {
      LaterEmpty(r.trace);
    }
  }

  lemma InterruptKeeps(r: Run)
    requires Kept(r) && Polls(r.pc)
    ensures Kept(Interrupt(r))
  {
    LaterEmpty(r.trace);
  }

  lemma GiveUpKeeps(r: Run)
    requires Kept(r) && r.pc.Locking?
    ensures Kept(GiveUp(r))
  {
    LaterEmpty(r.trace);
  }

  lemma AdvanceShape(r: Run, reply: Reply)
    requires Kept(r)
    ensures Shape(Advance(r, reply))
  {
    match r.pc
    case Start =>
    case Locking => LockShape(r, reply);
    case Beginning => BeginShape(r, reply);
    case Deleting(k) => DeleteShape(r, k, reply);
    case Setting(k) => SetShape(r, k, reply);
    case Committing => CommitShape(r, reply);
    case Saving => SaveShape(r, reply);
    case Discarding(explicit) => DiscardShape(r, explicit, reply);
    case Closing => CloseShape(r, reply);
    case Releasing => ReleaseShape(r, reply);
    case Done =>
  }

  lemma AdvanceRecorded(r: Run, reply: Reply)
    requires Kept(r)
    ensures Recorded(Advance(r, reply)) && Advance(r, reply).plan == r.plan
  {
    match r.pc
    case Start =>
    case Locking => LockRecorded(r, reply);
    case Beginning => BeginRecorded(r, reply);
    case Deleting(k) => DeleteRecorded(r, k, reply);
    case Setting(k) => SetRecorded(r, k, reply);
    case Committing => CommitRecorded(r, reply);
    case Saving => SaveRecorded(r, reply);
    case Discarding(explicit) => DiscardRecorded(r, explicit, reply);
    case Closing => CloseRecorded(r, reply);
    case Releasing => ReleaseRecorded(r, reply);
    case Done =>
  }

  lemma CaseKeeps(r: Run, r': Run, reply: Reply)
    requires Kept(r)
    requires r' == r || (Polls(r.pc) && r' == Interrupt(r)) || (r.pc.Locking? && r' == GiveUp(r))
          || r' == Advance(r, reply)
    ensures Kept(r') && r'.plan == r.plan
  {
    AdvanceShape(r, reply);
    AdvanceRecorded(r, reply);
    if Polls(r.pc) {
      InterruptKeeps(r);
    } else if r.pc.Locking? {
      GiveUpKeeps(r);
    }
  }

  // Whatever happens at a step, in whatever world.
  lemma StepKeeps(schema: C.Schema, me: nat, r: Run, w: World, a: Answer)
    requires Kept(r)
    ensures var r' := Step(schema, me, r, w, a).0;
      Kept(r') && r'.plan == r.plan
  {
    var now := r.(canceled := r.canceled || a.cancel);
    StepCases(schema, me, r, w, a);
    CaseKeeps(now, Step(schema, me, r, w, a).0, Perform(schema, me, now, w, a));
  }

  lemma {:induction false} BehaveKeeps(schema: C.Schema, me: nat, plan: Plan, turns: seq<Turn>)
    ensures var r := Behave(schema, me, plan, turns); Kept(r) && r.plan == plan
  {
    if turns != [] {
      var n := |turns| - 1;
      BehaveKeeps(schema, me, plan, turns[..n]);
      StepKeeps(schema, me, Behave(schema, me, plan, turns[..n]), turns[n].world, turns[n].answer);
    }
  }

  // ---- the contract of a complete run ----

  // How often a run called each of the steps that must not be repeated.
  datatype Tally = Tally(begins: nat, commits: nat, saves: nat, discards: nat, closes: nat, releases: nat)

  const ZERO := Tally(0, 0, 0, 0, 0, 0)

  function Counts(t: Trace): Tally {
    match t
    case Nothing => ZERO
    case Then(front, last) =>
      var c := Counts(front);
      match last.op
      case Begin => c.(begins := c.begins + 1)
      case Commit => c.(commits := c.commits + 1)
      case Save => c.(saves := c.saves + 1)
      case Discard(_) => c.(discards := c.discards + 1)
      case Close => c.(closes := c.closes + 1)
      case Release => c.(releases := c.releases + 1)
      case _ => c
  }

  lemma {:induction false} CallsCounts(t: Trace, d: nat, s: nat)
    requires Calls(t, d, s)
    ensures Counts(t) == ZERO.(begins := 1)
  {
    if s > 0 {
      CallsCounts(t.front, d, s - 1);
    } else if d > 0 {
      CallsCounts(t.front, d - 1, 0);
    } else {
      assert Counts(t.front.front) == ZERO;
      assert Counts(t.front) == ZERO;
    }
  }

  lemma FinishedCounts(plan: Plan, committed: bool, t: Trace)
    requires Finished(plan, committed, t)
    ensures var c := Counts(t);
      && c.begins == 1 && c.closes == 0 && c.releases == 0
      && c.discards == (if committed then 0 else 1)
      && c.commits <= 1 && c.saves <= if committed then 1 else 0
    ensures Succeeded(t, Begin)
  {
    if committed {
      var t' := if plan.save then t.front else t;
      var body := if plan.commit then t'.front else t';
      CallsCounts(body, |plan.deletes|, |plan.sets|);
      CallsBegin(body, |plan.deletes|, |plan.sets|);
    } else {
      var body := t.front.front;
      var d, s :| Calls(body, d, s);
      CallsCounts(body, d, s);
      CallsBegin(body, d, s);
    }
  }

  lemma {:induction false} CallsBegin(t: Trace, d: nat, s: nat)
    requires Calls(t, d, s)
    ensures Succeeded(t, Begin)
  {
    if s > 0 {
      CallsBegin(t.front, d, s - 1);
    } else if d > 0 {
      CallsBegin(t.front, d - 1, 0);
    }
  }

  lemma WholeCounts(plan: Plan, committed: bool, t: Trace)
    requires Whole(plan, committed, t)
    ensures var c := Counts(t);
      && (Succeeded(t, Begin) ==>
            c.begins == c.closes == c.releases == 1 && c.discards == if committed then 0 else 1)
      && (!Succeeded(t, Begin) ==> c.closes == c.discards == c.commits == 0)
      && c.commits <= 1 && c.saves <= if committed then 1 else 0
  {
    if Ends(t, Release) && Ends(t.front, Close) {
      FinishedCounts(plan, committed, t.front.front);
      assert Succeeded(t.front, Begin);
    } else if Ends(t, Release) {
      assert Counts(t.front.front.front) == ZERO && !Succeeded(t.front.front.front, Begin);
      assert Counts(t.front.front) == ZERO && !Succeeded(t.front.front, Begin);
      assert Counts(t.front) == ZERO.(begins := 1) && !Succeeded(t.front, Begin);
    } else {
      assert Counts(t.front) == ZERO && !Succeeded(t.front, Begin);
    }
  }

  // The language of the calls: once a session is open it is closed exactly once and
  // discarded exactly once unless a commit succeeded; the lock is given back last.
  lemma RunLanguage(schema: C.Schema, me: nat, plan: Plan, turns: seq<Turn>)
    requires Behave(schema, me, plan, turns).pc.Done?
    ensures var r := Behave(schema, me, plan, turns);
      var c := Counts(r.trace);
      && Whole(plan, r.committed, r.trace)
      && (Succeeded(r.trace, Begin) ==>
            c.begins == c.closes == c.releases == 1 && c.discards == if r.committed then 0 else 1)
      && (!Succeeded(r.trace, Begin) ==> c.closes == c.discards == c.commits == 0)
      && c.commits <= 1 && c.saves <= if r.committed then 1 else 0
  {
    BehaveKeeps(schema, me, plan, turns);
    var r := Behave(schema, me, plan, turns);
    WholeCounts(plan, r.committed, r.trace);
  }

  // The error of a run is that of its first failing call; a later failure, which
  // can only be a discard, a close or a release, is appended to it.
  lemma FirstFailureDecides(schema: C.Schema, me: nat, plan: Plan, turns: seq<Turn>)
    ensures var r := Behave(schema, me, plan, turns); r.outcome == ErrorOf(r.trace)
    ensures var r := Behave(schema, me, plan, turns);
      r.outcome.Failed? ==> forall op | op in r.outcome.notes :: op.Discard? || op.Close? || op.Release?
    ensures var r := Behave(schema, me, plan, turns); r.pc.Discarding? ==> r.outcome.Failed?
  {
    BehaveKeeps(schema, me, plan, turns);
  }

  ghost predicate Happened(e: Event, t: Trace) {
    t.Then? && (t.last == e || Happened(e, t.front))
  }

  // A run returns no error exactly if every call succeeded or deleted a missing node.
  lemma {:induction false} SuccessMeans(t: Trace)
    ensures ErrorOf(t).Success? <==>
      forall e | Happened(e, t) :: e.fault.NoFault? || (e.fault.MissingNode? && e.op.Delete?)
  {
    if t.Then? {
      SuccessMeans(t.front);
      assert Happened(t.last, t);
      assert forall e | Happened(e, t.front) :: Happened(e, t);
    }
  }

  // Applied tells the truth about the commit exactly for plans that commit.
  lemma FlagsTruthful(schema: C.Schema, me: nat, plan: Plan, turns: seq<Turn>)
    ensures var r := Behave(schema, me, plan, turns);
      && (plan.commit ==> (r.applied <==> Succeeded(r.trace, Commit)))
      && (!plan.commit ==> !Succeeded(r.trace, Commit))
      && (r.saved <==> Succeeded(r.trace, Save))
      && (r.saved ==> r.applied && plan.save)
  {
    BehaveKeeps(schema, me, plan, turns);
  }

  // ---- when nothing fails ----

  const OK := Answer(false, NoFault, "", {}, false)

  // The guards refuse none of the plan's commands.
  ghost predicate Runnable(plan: Plan) {
    && (forall i | 0 <= i < |plan.deletes| :: plan.deletes[i].Some?)
    && (forall i | 0 <= i < |plan.sets| :: plan.sets[i].Some?)
  }

  function Size(plan: Plan): nat {
    |plan.deletes| + |plan.sets|
  }

  // The run when n of its commands are done.
  function Onward(r: Run, n: nat): Run {
    if n <= |r.plan.deletes| then ToDelete(r, n) else ToSet(r, n - |r.plan.deletes|)
  }

  // A run in its main part that is not canceled.
  predicate Going(r: Run, plan: Plan, base: C.Config) {
    r.plan == plan && r.base == base && !r.canceled && !r.committed && !r.applied
  }

  lemma OkDelete(schema: C.Schema, me: nat, r: Run, w: World, k: nat) returns (r': Run)
    requires k < |r.plan.deletes| && r.plan.deletes[k].Some? && Going(r, r.plan, r.base)
    ensures Step(schema, me, r.(pc := Deleting(k)), w, OK).0 == ToDelete(r', k + 1) && Going(r', r.plan, r.base)
  {
    var now := r.(pc := Deleting(k));
    r' := Log(now, Delete(k), DeleteReply(w, r.plan.deletes[k], OK));
  }

  lemma OkSet(schema: C.Schema, me: nat, r: Run, w: World, k: nat) returns (r': Run)
    requires k < |r.plan.sets| && r.plan.sets[k].Some? && Going(r, r.plan, r.base)
    ensures Step(schema, me, r.(pc := Setting(k)), w, OK).0 == ToSet(r', k + 1) && Going(r', r.plan, r.base)
  {
    var now := r.(pc := Setting(k));
    r' := Log(now, Set(k), SetReply(schema, w, r.plan.sets[k], OK));
  }

  lemma OkCommand(schema: C.Schema, me: nat, r: Run, w: World, n: nat) returns (r': Run)
    requires Runnable(r.plan) && n < Size(r.plan) && Going(r, r.plan, r.base)
    ensures Step(schema, me, Onward(r, n), w, OK).0 == Onward(r', n + 1) && Going(r', r.plan, r.base)
  {
    var d := |r.plan.deletes|;
    if n < d {
      r' := OkDelete(schema, me, r, w, n);
    } else {
      r' := OkSet(schema, me, r, w, n - d);
      SameOnward(r, n);
      SameOnward(r', n + 1);
    }
  }

  lemma SameOnward(r: Run, n: nat)
    requires |r.plan.deletes| <= n
    ensures Onward(r, n) == ToSet(r, n - |r.plan.deletes|)
  {
  }

  function OkTurns(w: World, n: nat): seq<Turn> {
    seq(n, i => Turn(w, OK))
  }

  lemma {:induction false} OkBehaves(schema: C.Schema, me: nat, plan: Plan, w: World, n: nat) returns (r: Run)
    requires Runnable(plan) && w.lock.None? && n <= Size(plan)
    ensures Behave(schema, me, plan, OkTurns(w, n + 3)) == Onward(r, n) && Going(r, plan, w.active)
  {
    assert OkTurns(w, n + 3)[..n + 2] == OkTurns(w, n + 2);
    if n == 0 {
      r := OkOpening(schema, me, plan, w);
    } else {
      var before := OkBehaves(schema, me, plan, w, n - 1);
      r := OkCommand(schema, me, before, w, n - 1);
    }
  }

  lemma OkOpening(schema: C.Schema, me: nat, plan: Plan, w: World) returns (r: Run)
    requires w.lock.None?
    ensures Behave(schema, me, plan, OkTurns(w, 3)) == Onward(r, 0) && Going(r, plan, w.active)
  {
    var turn := Turn(w, OK);
    assert OkTurns(w, 3)[..2] == OkTurns(w, 2) && OkTurns(w, 2)[..1] == OkTurns(w, 1) && OkTurns(w, 1)[..0] == [];
    var r1 := Fresh(plan).(pc := Locking);
    assert Behave(schema, me, plan, OkTurns(w, 1)) == r1;
    var r2 := AfterLock(r1, Reply(NoFault, "", w));
    assert Behave(schema, me, plan, OkTurns(w, 2)) == r2;
    r := Log(r2, Begin, Reply(NoFault, "", w)).(base := w.active);
  }

  // A plan without commit whose commands all run is reported as applied although
  // nothing was committed.
  lemma AppliedWithoutCommit(schema: C.Schema, me: nat, plan: Plan, w: World)
    requires !plan.commit && Runnable(plan) && w.lock.None?
    ensures var r := Behave(schema, me, plan, OkTurns(w, Size(plan) + 3));
      r.applied && !Succeeded(r.trace, Commit)
  {
    var r := OkBehaves(schema, me, plan, w, Size(plan));
    assert Onward(r, Size(plan)) == ToCommitted(r);
    FlagsTruthful(schema, me, plan, OkTurns(w, Size(plan) + 3));
  }

  // ---- a refused command ----

  // The commands that a run has got past are runnable.
  ghost predicate Passed(r: Run) {
    && (r.pc.Deleting? ==> forall i | 0 <= i < r.pc.k && i < |r.plan.deletes| :: r.plan.deletes[i].Some?)
    && (r.pc.Setting? ==>
          && (forall i | 0 <= i < |r.plan.deletes| :: r.plan.deletes[i].Some?)
          && (forall i | 0 <= i < r.pc.k && i < |r.plan.sets| :: r.plan.sets[i].Some?))
    && (r.pc.Committing? || r.committed ==> Runnable(r.plan))
  }

  lemma DeletePasses(r: Run, k: nat, w: World, a: Answer)
    requires Passed(r) && r.pc == Deleting(k) && k < |r.plan.deletes| && !r.committed
    ensures Passed(AfterDelete(r, k, DeleteReply(w, r.plan.deletes[k], a)))
  {
    var reply := DeleteReply(w, r.plan.deletes[k], a);
    if reply.fault.NoFault? || reply.fault.MissingNode? {
      assert r.plan.deletes[k].Some?;
      assert forall i | 0 <= i < k + 1 && i < |r.plan.deletes| :: r.plan.deletes[i].Some?;
    }
  }

  lemma SetPasses(schema: C.Schema, r: Run, k: nat, w: World, a: Answer)
    requires Passed(r) && r.pc == Setting(k) && k < |r.plan.sets| && !r.committed
    ensures Passed(AfterSet(r, k, SetReply(schema, w, r.plan.sets[k], a)))
  {
    var reply := SetReply(schema, w, r.plan.sets[k], a);
    if reply.fault.NoFault? {
      assert r.plan.sets[k].Some?;
      assert forall i | 0 <= i < k + 1 && i < |r.plan.sets| :: r.plan.sets[i].Some?;
    }
  }

  lemma BeginPasses(r: Run, reply: Reply)
    requires r.pc.Beginning? && !r.committed
    ensures Passed(AfterBegin(r, reply))
  {
  }

  lemma CommitPasses(r: Run, reply: Reply)
    requires Passed(r) && r.pc.Committing?
    ensures Passed(AfterCommit(r, reply))
  {
  }

  lemma OthersPass(r: Run, reply: Reply)
    requires Passed(r) && !r.pc.Beginning? && !r.pc.Deleting? && !r.pc.Setting? && !r.pc.Committing?
    ensures Passed(Advance(r, reply))
  {
  }

  lemma StopsPass(r: Run)
    requires Passed(r)
    ensures (Polls(r.pc) ==> Passed(Interrupt(r))) && Passed(GiveUp(r))
  {
  }

  lemma AdvancePasses(schema: C.Schema, me: nat, r: Run, w: World, a: Answer)
    requires Kept(r) && Passed(r)
    ensures Passed(Advance(r, Perform(schema, me, r, w, a)))
  {
    match r.pc
    case Beginning => BeginPasses(r, Perform(schema, me, r, w, a));
    case Deleting(k) => DeletePasses(r, k, w, a);
    case Setting(k) => SetPasses(schema, r, k, w, a);
    case Committing => CommitPasses(r, Perform(schema, me, r, w, a));
    case _ => OthersPass(r, Perform(schema, me, r, w, a));
  }

  lemma CasePasses(r: Run, r': Run, reply: Reply)
    requires Passed(r) && Passed(Advance(r, reply))
    requires r' == r || (Polls(r.pc) && r' == Interrupt(r)) || (r.pc.Locking? && r' == GiveUp(r))
      || r' == Advance(r, reply)
    ensures Passed(r')
  {
    StopsPass(r);
  }

  lemma StepPasses(schema: C.Schema, me: nat, r: Run, w: World, a: Answer)
    requires Kept(r) && Passed(r)
    ensures Passed(Step(schema, me, r, w, a).0)
  {
    var now := r.(canceled := r.canceled || a.cancel);
    StepCases(schema, me, r, w, a);
    AdvancePasses(schema, me, now, w, a);
    CasePasses(now, Step(schema, me, r, w, a).0, Perform(schema, me, now, w, a));
  }

  lemma {:induction false} BehavePasses(schema: C.Schema, me: nat, plan: Plan, turns: seq<Turn>)
    ensures Passed(Behave(schema, me, plan, turns))
  {
    if turns != [] {
      var n := |turns| - 1;
      BehavePasses(schema, me, plan, turns[..n]);
      BehaveKeeps(schema, me, plan, turns[..n]);
      StepPasses(schema, me, Behave(schema, me, plan, turns[..n]), turns[n].world, turns[n].answer);
    }
  }

  ghost predicate TellsTheTruth(schema: C.Schema, me: nat, plan: Plan) {
    forall turns :: var r := Behave(schema, me, plan, turns); r.applied <==> Succeeded(r.trace, Commit)
  }

  // Applied tells the truth about the commit, in every run of a plan, if and only if
  // the plan commits or the guards refuse one of its commands.
  lemma TruthfulExactly(schema: C.Schema, me: nat, plan: Plan)
    ensures TellsTheTruth(schema, me, plan) <==> plan.commit || !Runnable(plan)
  {
    if plan.commit || !Runnable(plan) {
      forall turns
        ensures var r := Behave(schema, me, plan, turns); r.applied <==> Succeeded(r.trace, Commit)
      {
        FlagsTruthful(schema, me, plan, turns);
        BehaveKeeps(schema, me, plan, turns);
        BehavePasses(schema, me, plan, turns);
      }
    } else {
      var w := World({}, None, {}, None, []);
      AppliedWithoutCommit(schema, me, plan, w);
    }
  }

  // ---- cancellation ----

  // What changes the candidate, the active or the boot configuration on purpose.
  predicate Acts(op: Op) {
    op.Delete? || op.Set? || op.Commit? || op.Save?
  }

  // Once the context is canceled nothing of the plan is started any more: what is logged
  // is the poll that noticed it, or cleanup.
  lemma CanceledStartsNothing(schema: C.Schema, me: nat, r: Run, w: World, a: Answer)
    requires r.canceled || a.cancel
    ensures var r' := Step(schema, me, r, w, a).0; r'.canceled && LogsNothing(r.trace, r'.trace)
  {
    var now := r.(canceled := r.canceled || a.cancel);
    if !Polls(r.pc) {
      UnpolledLogs(now, Perform(schema, me, now, w, a));
    }
  }

  // At most one call is logged, and not one that acts.
  ghost predicate LogsNothing(t: Trace, t': Trace) {
    t' == t || (t'.Then? && t'.front == t && !Acts(t'.last.op))
  }

  lemma BeginLogs(r: Run, reply: Reply)
    ensures LogsNothing(r.trace, AfterBegin(r, reply).trace)
  {
    OnwardTrace(Log(r, Begin, reply).(base := reply.world.Candidate()));
  }

  lemma OnwardTrace(r: Run)
    ensures ToDelete(r, 0).trace == r.trace
  {
  }

  lemma LockLogs(r: Run, reply: Reply)
    ensures LogsNothing(r.trace, AfterLock(r, reply).trace)
  {
  }

  lemma DiscardLogs(r: Run, explicit: bool, reply: Reply)
    ensures LogsNothing(r.trace, AfterDiscard(r, explicit, reply).trace)
  {
  }

  lemma CloseLogs(r: Run, reply: Reply)
    ensures LogsNothing(r.trace, AfterClose(r, reply).trace)
  {
  }

  lemma ReleaseLogs(r: Run, reply: Reply)
    ensures LogsNothing(r.trace, AfterRelease(r, reply).trace)
  {
  }

  lemma UnpolledLogs(r: Run, reply: Reply)
    requires !Polls(r.pc)
    ensures LogsNothing(r.trace, Advance(r, reply).trace)
  {
    match r.pc
    case Beginning => BeginLogs(r, reply);
    case Locking => LockLogs(r, reply);
    case Discarding(explicit) => DiscardLogs(r, explicit, reply);
    case Closing => CloseLogs(r, reply);
    case Releasing => ReleaseLogs(r, reply);
    case Done =>
  }
}
