// Any number of runs, interleaved step by step, that share one device, one
// session keyed by the process id, and one file lock.
module Concurrency {
  import opened Wrappers
  import C = Config
  import opened Transaction
  import opened RunProperties

  datatype System = System(runs: seq<Run>, world: World)

  // Run `who` takes its next step and the environment answers.
  datatype Label = Label(who: nat, answer: Answer)

  function Initial(plans: seq<Plan>, active: C.Config, boot: C.Config): System {
    System(seq(|plans|, i requires 0 <= i < |plans| => Fresh(plans[i])), World(active, None, boot, None, []))
  }

  function Move(schema: C.Schema, s: System, l: Label): System {
    if l.who < |s.runs| then
      var (r, w) := Step(schema, l.who, s.runs[l.who], s.world, l.answer);
      System(s.runs[l.who := r], w)
    else s
  }

  function Play(schema: C.Schema, s: System, labels: seq<Label>): System {
    if labels == [] then s
    else
      var n := |labels| - 1;
      Move(schema, Play(schema, s, labels[..n]), labels[n])
  }

  // ---- assumptions on the device ----

  // A delete reported as missing had nothing to delete.
  ghost predicate Honest(r: Run, w: World, a: Answer) {
    r.pc.Deleting? && r.pc.k < |r.plan.deletes| && a.fault.MissingNode? ==>
      forall p | p in w.Candidate() :: !(PathOf(r.plan.deletes[r.pc.k]) <= p)
  }

  // The teardown of a session fails only if its candidate holds no changes, that
  // is, after a commit or a successful discard.
  ghost predicate CleansUp(r: Run, a: Answer) {
    r.pc.Closing? && !a.fault.NoFault? ==> !r.trace.Then? || !r.trace.last.op.Discard? || r.trace.last.fault.NoFault?
  }

  ghost predicate AllHonest(schema: C.Schema, s: System, labels: seq<Label>) {
    labels != [] ==>
      var front, l := labels[..|labels| - 1], labels[|labels| - 1];
      var before := Play(schema, s, front);
      && AllHonest(schema, s, front)
      && (l.who < |before.runs| ==> Honest(before.runs[l.who], before.world, l.answer))
  }

  ghost predicate AllCleanUp(schema: C.Schema, s: System, labels: seq<Label>) {
    labels != [] ==>
      var front, l := labels[..|labels| - 1], labels[|labels| - 1];
      var before := Play(schema, s, front);
      && AllCleanUp(schema, s, front)
      && (l.who < |before.runs| ==> CleansUp(before.runs[l.who], l.answer))
  }

  // ---- what a plan does to a configuration ----

  function PathOf(command: Option<C.Path>): C.Path {
    match command case Some(path) => path case None => []
  }

  function PathsOf(commands: seq<Option<C.Path>>): seq<C.Path> {
    if commands == [] then [] else PathsOf(commands[..|commands| - 1]) + [PathOf(commands[|commands| - 1])]
  }

  function AfterPlan(schema: C.Schema, plan: Plan, c: C.Config): C.Config {
    C.Replace(schema, c, PathsOf(plan.deletes), PathsOf(plan.sets))
  }

  // The given plans, carried out one after the other.
  function Replay(schema: C.Schema, plans: seq<Plan>, c: C.Config, order: seq<nat>): C.Config {
    if order == [] then c
    else
      var n := |order| - 1;
      var before := Replay(schema, plans, c, order[..n]);
      if order[n] < |plans| then AfterPlan(schema, plans[order[n]], before) else before
  }

  // ---- the invariant of one run ----

  predicate Holds(pc: Pc) {
    pc.Beginning? || pc.Deleting? || pc.Setting? || pc.Committing? || pc.Saving? || pc.Discarding?
      || pc.Closing? || pc.Releasing?
  }

  predicate InSession(pc: Pc) {
    Holds(pc) && !pc.Beginning? && !pc.Releasing?
  }

  predicate Locked(me: nat, r: Run, w: World) {
    Holds(r.pc) ==> w.lock == Some(me)
  }

  // The holder's candidate is what its plan has made of the candidate it began
  // with so far.
  ghost predicate Tracks(schema: C.Schema, r: Run, w: World) {
    match r.pc
    case Deleting(k) => k < |r.plan.deletes| && w.overlay == Some(Deleted(r.plan, r.base, k))
    case Setting(k) => k < |r.plan.sets| && w.overlay == Some(WithSets(schema, r.plan, r.base, k))
    case Committing => w.overlay == Some(AfterPlan(schema, r.plan, r.base))
    case _ => true
  }

  function Deleted(plan: Plan, base: C.Config, k: nat): C.Config
    requires k <= |plan.deletes|
  {
    C.DeleteAll(base, PathsOf(plan.deletes[..k]))
  }

  function WithSets(schema: C.Schema, plan: Plan, base: C.Config, k: nat): C.Config
    requires k <= |plan.sets|
  {
    C.SetAll(schema, Deleted(plan, base, |plan.deletes|), PathsOf(plan.sets[..k]))
  }

  lemma PathsExtend(commands: seq<Option<C.Path>>, k: nat)
    requires k < |commands|
    ensures PathsOf(commands[..k + 1]) == PathsOf(commands[..k]) + [PathOf(commands[k])]
    ensures commands[..|commands|] == commands && commands[..0] == []
  {
    assert commands[..k + 1][..k] == commands[..k];
  }

  lemma DeletedNext(plan: Plan, base: C.Config, k: nat)
    requires k < |plan.deletes|
    ensures Deleted(plan, base, k + 1) == C.Delete(Deleted(plan, base, k), PathOf(plan.deletes[k]))
  {
    PathsExtend(plan.deletes, k);
    var paths := PathsOf(plan.deletes[..k + 1]);
    assert paths[..|paths| - 1] == PathsOf(plan.deletes[..k]);
  }

  lemma WithSetsNext(schema: C.Schema, plan: Plan, base: C.Config, k: nat)
    requires k < |plan.sets|
    ensures WithSets(schema, plan, base, k + 1) == C.Set(schema, WithSets(schema, plan, base, k), PathOf(plan.sets[k]))
  {
    PathsExtend(plan.sets, k);
    var paths := PathsOf(plan.sets[..k + 1]);
    assert paths[..|paths| - 1] == PathsOf(plan.sets[..k]);
  }

  lemma Ends(schema: C.Schema, plan: Plan, base: C.Config)
    ensures Deleted(plan, base, 0) == base
    ensures WithSets(schema, plan, base, 0) == Deleted(plan, base, |plan.deletes|)
    ensures WithSets(schema, plan, base, |plan.sets|) == AfterPlan(schema, plan, base)
  {
    assert plan.deletes[..0] == [] && plan.sets[..0] == [];
    assert plan.deletes[..|plan.deletes|] == plan.deletes && plan.sets[..|plan.sets|] == plan.sets;
  }

  lemma MissingDeletesNothing(c: C.Config, path: C.Path)
    requires forall p | p in c :: !(path <= p)
    ensures C.Delete(c, path) == c
  {
  }

  lemma ToSetTracks(schema: C.Schema, r: Run, k: nat, w: World)
    requires r.plan.commit && k <= |r.plan.sets|
    requires w.overlay == Some(WithSets(schema, r.plan, r.base, k))
    ensures Tracks(schema, ToSet(r, k), w)
  {
    Ends(schema, r.plan, r.base);
  }

  lemma ToDeleteTracks(schema: C.Schema, r: Run, k: nat, w: World)
    requires r.plan.commit && k <= |r.plan.deletes|
    requires w.overlay == Some(Deleted(r.plan, r.base, k))
    ensures Tracks(schema, ToDelete(r, k), w)
  {
    if k == |r.plan.deletes| {
      Ends(schema, r.plan, r.base);
      ToSetTracks(schema, r, 0, w);
    }
  }

  lemma DeleteEffect(r: Run, k: nat, w: World, a: Answer)
    requires r.pc == Deleting(k) && k < |r.plan.deletes| && w.overlay == Some(Deleted(r.plan, r.base, k))
    requires Honest(r, w, a)
    ensures var reply := DeleteReply(w, r.plan.deletes[k], a);
      reply.fault.NoFault? || reply.fault.MissingNode? ==> reply.world.overlay == Some(Deleted(r.plan, r.base, k + 1))
  {
    DeletedNext(r.plan, r.base, k);
    if a.fault.MissingNode? {
      MissingDeletesNothing(w.Candidate(), PathOf(r.plan.deletes[k]));
    }
  }

  lemma DeleteTracks(schema: C.Schema, r: Run, k: nat, reply: Reply)
    requires r.plan.commit && r.pc == Deleting(k) && k < |r.plan.deletes|
    requires reply.fault.NoFault? || reply.fault.MissingNode? ==>
      reply.world.overlay == Some(Deleted(r.plan, r.base, k + 1))
    ensures Tracks(schema, AfterDelete(r, k, reply), reply.world)
  {
    if reply.fault.NoFault? || reply.fault.MissingNode? {
      ToDeleteTracks(schema, Log(r, Delete(k), reply), k + 1, reply.world);
    }
  }

  lemma SetTracks(schema: C.Schema, r: Run, k: nat, w: World, a: Answer)
    requires Tracks(schema, r, w) && r.plan.commit && r.pc == Setting(k)
    ensures var reply := SetReply(schema, w, r.plan.sets[k], a);
      Tracks(schema, AfterSet(r, k, reply), reply.world)
  {
    var reply := SetReply(schema, w, r.plan.sets[k], a);
    if reply.fault.NoFault? {
      WithSetsNext(schema, r.plan, r.base, k);
      ToSetTracks(schema, Log(r, Set(k), reply), k + 1, reply.world);
    }
  }

  lemma BeginTracks(schema: C.Schema, r: Run, reply: Reply)
    requires r.plan.commit && (reply.fault.NoFault? ==> reply.world.overlay.Some?)
    ensures Tracks(schema, AfterBegin(r, reply), reply.world)
  {
    if reply.fault.NoFault? {
      var r' := Log(r, Begin, reply).(base := reply.world.Candidate());
      Ends(schema, r.plan, r'.base);
      ToDeleteTracks(schema, r', 0, reply.world);
    }
  }

  // The steps after which a run has no candidate to keep track of.
  lemma OtherPc(r: Run, reply: Reply)
    requires !r.pc.Deleting? && !r.pc.Setting? && !r.pc.Beginning?
    ensures var pc := Advance(r, reply).pc; !pc.Deleting? && !pc.Setting? && !pc.Committing?
  {
    match r.pc
    case Committing =>
    case _ =>
  }

  lemma Untracked(schema: C.Schema, r: Run, w: World)
    requires !r.pc.Deleting? && !r.pc.Setting? && !r.pc.Committing?
    ensures Tracks(schema, r, w)
  {
  }

  lemma OtherTracks(schema: C.Schema, r: Run, reply: Reply)
    requires !r.pc.Deleting? && !r.pc.Setting? && !r.pc.Beginning?
    ensures Tracks(schema, Advance(r, reply), reply.world)
  {
    OtherPc(r, reply);
    Untracked(schema, Advance(r, reply), reply.world);
  }

  lemma StopTracks(schema: C.Schema, r: Run, w: World)
    ensures Polls(r.pc) ==> Tracks(schema, Interrupt(r), w)
    ensures Tracks(schema, GiveUp(r), w)
  {
  }

  lemma AdvanceTracks(schema: C.Schema, me: nat, r: Run, w: World, a: Answer)
    requires Tracks(schema, r, w) && r.plan.commit && Honest(r, w, a)
    ensures var reply := Perform(schema, me, r, w, a); Tracks(schema, Advance(r, reply), reply.world)
  {
    match r.pc
    case Beginning => BeginTracks(schema, r, Perform(schema, me, r, w, a));
    case Deleting(k) =>
      DeleteEffect(r, k, w, a);
      DeleteTracks(schema, r, k, DeleteReply(w, r.plan.deletes[k], a));
    case Setting(k) => SetTracks(schema, r, k, w, a);
    case _ => OtherTracks(schema, r, Perform(schema, me, r, w, a));
  }

  // A run keeps track of its candidate at every step.
  lemma StepTracks(schema: C.Schema, me: nat, r: Run, w: World, a: Answer)
    requires Tracks(schema, r, w) && r.plan.commit && Honest(r, w, a)
    ensures var (r', w') := Step(schema, me, r, w, a); Tracks(schema, r', w')
  {
    var now := r.(canceled := r.canceled || a.cancel);
    AdvanceTracks(schema, me, now, w, a);
    StopTracks(schema, now, w);
  }

  // What a step may do to the shared world.
  ghost predicate Framed(me: nat, r: Run, w: World, w': World) {
    && (!Holds(r.pc) ==> w' == w || (w.lock.None? && w' == w.(lock := Some(me))))
    && (Holds(r.pc) ==> w'.lock == w.lock || w'.lock.None?)
    && (if w'.commits == w.commits then w'.active == w.active
        else r.pc.Committing? && w'.commits == w.commits + [me] && w'.active == w.Candidate())
  }

  lemma StepFramed(schema: C.Schema, me: nat, r: Run, w: World, a: Answer)
    ensures Framed(me, r, w, Step(schema, me, r, w, a).1)
  {
  }

  lemma AdvanceHolds(r: Run, reply: Reply)
    ensures Holds(Advance(r, reply).pc) ==>
      (r.pc.Locking? && reply.fault.NoFault?) || (Holds(r.pc) && !r.pc.Releasing?)
  {
    match r.pc
    case Start =>
    case Closing =>
    case Releasing =>
    case Done =>
    case _ =>
  }

  lemma PerformLock(schema: C.Schema, me: nat, r: Run, w: World, a: Answer)
    ensures var reply := Perform(schema, me, r, w, a);
      && (r.pc.Locking? && reply.fault.NoFault? ==> reply.world.lock == Some(me))
      && (!r.pc.Locking? && !r.pc.Releasing? ==> reply.world.lock == w.lock)
  {
  }

  lemma StepLocked(schema: C.Schema, me: nat, r: Run, w: World, a: Answer)
    requires Locked(me, r, w)
    ensures var (r', w') := Step(schema, me, r, w, a); Locked(me, r', w')
  {
    var now := r.(canceled := r.canceled || a.cancel);
    AdvanceHolds(now, Perform(schema, me, now, w, a));
    PerformLock(schema, me, now, w, a);
  }

  // ---- mutual exclusion ----

  ghost predicate AllLocked(s: System) {
    forall i | 0 <= i < |s.runs| :: Locked(i, s.runs[i], s.world)
  }

  lemma NeighbourLocked(me: nat, r: Run, you: nat, r2: Run, w: World, w': World)
    requires me != you && Locked(me, r, w) && Locked(you, r2, w) && Framed(me, r, w, w')
    ensures Locked(you, r2, w')
    ensures Holds(r2.pc) ==> w' == w
  {
  }

  lemma MoveLocked(schema: C.Schema, s: System, l: Label)
    requires AllLocked(s)
    ensures AllLocked(Move(schema, s, l))
  {
    if l.who < |s.runs| {
      var r := s.runs[l.who];
      var w' := Step(schema, l.who, r, s.world, l.answer).1;
      StepLocked(schema, l.who, r, s.world, l.answer);
      StepFramed(schema, l.who, r, s.world, l.answer);
      forall j | 0 <= j < |s.runs| && j != l.who
        ensures Locked(j, s.runs[j], w')
      {
        NeighbourLocked(l.who, r, j, s.runs[j], s.world, w');
      }
    }
  }

  lemma {:induction false} PlayLocked(
      schema: C.Schema, plans: seq<Plan>, active: C.Config, boot: C.Config, labels: seq<Label>)
    ensures AllLocked(Play(schema, Initial(plans, active, boot), labels))
  {
    if labels != [] {
      var n := |labels| - 1;
      PlayLocked(schema, plans, active, boot, labels[..n]);
      MoveLocked(schema, Play(schema, Initial(plans, active, boot), labels[..n]), labels[n]);
    }
  }

  // In every interleaving at most one run is between lock and release.
  lemma MutualExclusion(schema: C.Schema, plans: seq<Plan>, active: C.Config, boot: C.Config, labels: seq<Label>)
    ensures var s := Play(schema, Initial(plans, active, boot), labels);
      forall i, j | 0 <= i < |s.runs| && 0 <= j < |s.runs| && Holds(s.runs[i].pc) && Holds(s.runs[j].pc) :: i == j
  {
    PlayLocked(schema, plans, active, boot, labels);
    var s := Play(schema, Initial(plans, active, boot), labels);
    forall i, j | 0 <= i < |s.runs| && 0 <= j < |s.runs| && Holds(s.runs[i].pc) && Holds(s.runs[j].pc)
      ensures i == j
    {
      assert Locked(i, s.runs[i], s.world) && Locked(j, s.runs[j], s.world);
    }
  }

  // ---- serializability ----

  // The candidate holds no changes.
  predicate Settled(w: World) {
    w.overlay.None? || w.overlay == Some(w.active)
  }

  predicate DiscardFailed(t: Trace) {
    t.Then? && t.last.op.Discard? && !t.last.fault.NoFault?
  }

  // While a session works it sees the configuration it began with, and once it has
  // committed or discarded its candidate is settled.
  predicate Tidy(r: Run, w: World) {
    && (r.pc.Deleting? || r.pc.Setting? || r.pc.Committing? ==> r.base == w.active)
    && (r.pc.Saving? ==> Settled(w))
    && (r.pc.Closing? && !DiscardFailed(r.trace) ==> Settled(w))
  }

  lemma TidyBegin(r: Run, w: World, reply: Reply)
    requires r.pc.Beginning? && r.plan.commit && Settled(w)
    requires if reply.fault.NoFault? then reply.world.active == w.active && reply.world.overlay == Some(w.active)
      else reply.world == w
    ensures var r' := AfterBegin(r, reply);
      Tidy(r', reply.world) && (!InSession(r'.pc) ==> Settled(reply.world))
  {
  }

  lemma TidyDelete(r: Run, k: nat, w: World, reply: Reply)
    requires r.pc == Deleting(k)
    requires Tidy(r, w) && r.plan.commit && reply.world.active == w.active
    ensures var r' := AfterDelete(r, k, reply); Tidy(r', reply.world) && InSession(r'.pc)
  {
  }

  lemma TidySet(r: Run, k: nat, w: World, reply: Reply)
    requires r.pc == Setting(k)
    requires Tidy(r, w) && r.plan.commit && reply.world.active == w.active
    ensures var r' := AfterSet(r, k, reply); Tidy(r', reply.world) && InSession(r'.pc)
  {
  }

  lemma TidyCommit(schema: C.Schema, me: nat, r: Run, w: World, a: Answer)
    requires r.pc.Committing? && Tidy(r, w) && w.overlay.Some?
    ensures var reply := Perform(schema, me, r, w, a); var r' := AfterCommit(r, reply);
      Tidy(r', reply.world) && InSession(r'.pc)
  {
  }

  lemma TidySave(schema: C.Schema, me: nat, r: Run, w: World, a: Answer)
    requires r.pc.Saving? && Tidy(r, w)
    ensures var reply := Perform(schema, me, r, w, a); var r' := AfterSave(r, reply);
      Tidy(r', reply.world) && InSession(r'.pc)
  {
  }

  lemma TidyDiscard(schema: C.Schema, me: nat, r: Run, explicit: bool, w: World, a: Answer)
    requires r.pc == Discarding(explicit)
    ensures var reply := Perform(schema, me, r, w, a); var r' := AfterDiscard(r, explicit, reply);
      Tidy(r', reply.world) && InSession(r'.pc)
  {
  }

  lemma TidyClose(schema: C.Schema, me: nat, r: Run, w: World, a: Answer)
    requires r.pc.Closing? && Tidy(r, w) && CleansUp(r, a)
    ensures var reply := Perform(schema, me, r, w, a); var r' := AfterClose(r, reply);
      Tidy(r', reply.world) && Settled(reply.world)
  {
  }

  lemma TidyOutside(schema: C.Schema, me: nat, r: Run, w: World, a: Answer)
    requires r.pc.Start? || r.pc.Locking? || r.pc.Releasing? || r.pc.Done?
    ensures var reply := Perform(schema, me, r, w, a); var r' := Advance(r, reply);
      && Tidy(r', reply.world) && !InSession(r'.pc)
      && reply.world.active == w.active && reply.world.overlay == w.overlay
  {
  }

  lemma TidyStop(r: Run, w: World)
    requires Tidy(r, w) && Kept(r)
    ensures Polls(r.pc) ==> Tidy(Interrupt(r), w) && (InSession(r.pc) ==> InSession(Interrupt(r).pc))
    ensures r.pc.Locking? ==> Tidy(GiveUp(r), w)
  {
  }

  lemma AdvanceTidy(schema: C.Schema, me: nat, r: Run, w: World, a: Answer)
    requires Tidy(r, w) && Tracks(schema, r, w) && r.plan.commit && CleansUp(r, a)
    requires r.pc.Beginning? ==> Settled(w)
    ensures var reply := Perform(schema, me, r, w, a); var r' := Advance(r, reply);
      && Tidy(r', reply.world)
      && (InSession(r'.pc) || Settled(reply.world)
          || (!InSession(r.pc) && reply.world.active == w.active && reply.world.overlay == w.overlay))
  {
    match r.pc
    case Beginning => TidyBegin(r, w, Perform(schema, me, r, w, a));
    case Deleting(k) => TidyDelete(r, k, w, Perform(schema, me, r, w, a));
    case Setting(k) => TidySet(r, k, w, Perform(schema, me, r, w, a));
    case Committing => TidyCommit(schema, me, r, w, a);
    case Saving => TidySave(schema, me, r, w, a);
    case Discarding(explicit) => TidyDiscard(schema, me, r, explicit, w, a);
    case Closing => TidyClose(schema, me, r, w, a);
    case _ => TidyOutside(schema, me, r, w, a);
  }

  lemma StepTidy(schema: C.Schema, me: nat, r: Run, w: World, a: Answer)
    requires Tidy(r, w) && Tracks(schema, r, w) && r.plan.commit && CleansUp(r, a) && Kept(r)
    requires r.pc.Beginning? ==> Settled(w)
    ensures var (r', w') := Step(schema, me, r, w, a);
      && Tidy(r', w')
      && (InSession(r'.pc) || Settled(w') || (!InSession(r.pc) && w'.active == w.active && w'.overlay == w.overlay))
  {
    var now := r.(canceled := r.canceled || a.cancel);
    AdvanceTidy(schema, me, now, w, a);
    TidyStop(now, w);
  }

  ghost predicate Good(schema: C.Schema, plan: Plan, me: nat, r: Run, w: World) {
    r.plan == plan && plan.commit && Kept(r) && Locked(me, r, w) && Tracks(schema, r, w) && Tidy(r, w)
  }

  lemma StepGood(schema: C.Schema, plan: Plan, me: nat, r: Run, w: World, a: Answer)
    requires Good(schema, plan, me, r, w) && Honest(r, w, a) && CleansUp(r, a)
    requires r.pc.Beginning? ==> Settled(w)
    ensures var (r', w') := Step(schema, me, r, w, a); Good(schema, plan, me, r', w')
  {
    StepKeeps(schema, me, r, w, a);
    StepLocked(schema, me, r, w, a);
    StepTracks(schema, me, r, w, a);
    StepTidy(schema, me, r, w, a);
  }

  lemma NeighbourGood(schema: C.Schema, me: nat, r: Run, plan: Plan, you: nat, r2: Run, w: World, w': World)
    requires me != you && Locked(me, r, w) && Framed(me, r, w, w')
    requires Good(schema, plan, you, r2, w)
    ensures Good(schema, plan, you, r2, w')
  {
    NeighbourLocked(me, r, you, r2, w, w');
  }

  ghost predicate AllGood(schema: C.Schema, plans: seq<Plan>, s: System) {
    |s.runs| == |plans| && forall i | 0 <= i < |plans| :: Good(schema, plans[i], i, s.runs[i], s.world)
  }

  // While no session is open the candidate is settled.
  ghost predicate Quiet(s: System) {
    (exists i | 0 <= i < |s.runs| :: InSession(s.runs[i].pc)) || Settled(s.world)
  }

  ghost predicate Serial(schema: C.Schema, plans: seq<Plan>, active: C.Config, s: System) {
    AllGood(schema, plans, s) && Quiet(s) && s.world.active == Replay(schema, plans, active, s.world.commits)
  }

  lemma MoveGood(schema: C.Schema, plans: seq<Plan>, active: C.Config, s: System, l: Label)
    requires Serial(schema, plans, active, s) && l.who < |s.runs|
    requires Honest(s.runs[l.who], s.world, l.answer) && CleansUp(s.runs[l.who], l.answer)
    ensures AllGood(schema, plans, Move(schema, s, l))
  {
    var r, w := s.runs[l.who], s.world;
    assert Good(schema, plans[l.who], l.who, r, w);
    var w' := Step(schema, l.who, r, w, l.answer).1;
    if r.pc.Beginning? {
      AloneSettled(schema, plans, s, l.who);
    }
    StepGood(schema, plans[l.who], l.who, r, w, l.answer);
    StepFramed(schema, l.who, r, w, l.answer);
    forall j | 0 <= j < |plans| && j != l.who
      ensures Good(schema, plans[j], j, s.runs[j], w')
    {
      NeighbourGood(schema, l.who, r, plans[j], j, s.runs[j], w, w');
    }
  }

  // The holder of the lock outside a session: nobody is in a session.
  lemma AloneSettled(schema: C.Schema, plans: seq<Plan>, s: System, me: nat)
    requires AllGood(schema, plans, s) && Quiet(s) && me < |plans|
    requires Holds(s.runs[me].pc) && !InSession(s.runs[me].pc)
    ensures Settled(s.world)
  {
    forall i | 0 <= i < |s.runs|
      ensures !InSession(s.runs[i].pc)
    {
      assert Good(schema, plans[i], i, s.runs[i], s.world) && Good(schema, plans[me], me, s.runs[me], s.world);
    }
  }

  lemma MoveQuiet(schema: C.Schema, plans: seq<Plan>, active: C.Config, s: System, l: Label)
    requires Serial(schema, plans, active, s) && l.who < |s.runs|
    requires Honest(s.runs[l.who], s.world, l.answer) && CleansUp(s.runs[l.who], l.answer)
    ensures Quiet(Move(schema, s, l))
  {
    var r, w := s.runs[l.who], s.world;
    assert Good(schema, plans[l.who], l.who, r, w);
    if r.pc.Beginning? {
      AloneSettled(schema, plans, s, l.who);
    }
    StepTidy(schema, l.who, r, w, l.answer);
    var s' := Move(schema, s, l);
    if InSession(s'.runs[l.who].pc) {
    } else if !Settled(s'.world) {
      var i :| 0 <= i < |s.runs| && InSession(s.runs[i].pc);
      assert s'.runs[i] == s.runs[i];
    }
  }

  // A step commits the plan of its run on the active configuration, or changes neither
  // the active configuration nor the order of the commits.
  lemma StepActive(schema: C.Schema, plan: Plan, me: nat, r: Run, w: World, a: Answer)
    requires Good(schema, plan, me, r, w)
    ensures var w' := Step(schema, me, r, w, a).1;
      || (w'.commits == w.commits && w'.active == w.active)
      || (w'.commits == w.commits + [me] && w'.active == AfterPlan(schema, plan, w.active))
  {
    StepLast(schema, me, r, w, a);
    if !r.pc.Committing? {
      StepQuiet(schema, me, r, w, a);
    } else {
      TidyBase(r, w);
    }
  }

  lemma StepQuiet(schema: C.Schema, me: nat, r: Run, w: World, a: Answer)
    requires !r.pc.Committing?
    ensures Step(schema, me, r, w, a).1.commits == w.commits
  {
  }

  lemma TidyBase(r: Run, w: World)
    requires Tidy(r, w) && r.pc.Committing?
    ensures r.base == w.active
  {
  }

  lemma ReplayExtends(schema: C.Schema, plans: seq<Plan>, c: C.Config, order: seq<nat>, me: nat)
    requires me < |plans|
    ensures Replay(schema, plans, c, order + [me]) == AfterPlan(schema, plans[me], Replay(schema, plans, c, order))
  {
    assert (order + [me])[..|order|] == order;
  }

  lemma MoveReplay(schema: C.Schema, plans: seq<Plan>, active: C.Config, s: System, l: Label)
    requires Serial(schema, plans, active, s) && l.who < |s.runs|
    ensures var w' := Move(schema, s, l).world; w'.active == Replay(schema, plans, active, w'.commits)
  {
    assert Good(schema, plans[l.who], l.who, s.runs[l.who], s.world);
    StepActive(schema, plans[l.who], l.who, s.runs[l.who], s.world, l.answer);
    ReplayExtends(schema, plans, active, s.world.commits, l.who);
  }

  lemma InitialSerial(schema: C.Schema, plans: seq<Plan>, active: C.Config, boot: C.Config)
    requires forall i | 0 <= i < |plans| :: plans[i].commit
    ensures Serial(schema, plans, active, Initial(plans, active, boot))
  {
    var s := Initial(plans, active, boot);
    forall i | 0 <= i < |plans|
      ensures Good(schema, plans[i], i, s.runs[i], s.world)
    {
      assert s.runs[i] == Fresh(plans[i]);
    }
  }

  lemma {:induction false} PlaySerial(
      schema: C.Schema, plans: seq<Plan>, active: C.Config, boot: C.Config, labels: seq<Label>)
    requires forall i | 0 <= i < |plans| :: plans[i].commit
    requires AllHonest(schema, Initial(plans, active, boot), labels)
    requires AllCleanUp(schema, Initial(plans, active, boot), labels)
    ensures Serial(schema, plans, active, Play(schema, Initial(plans, active, boot), labels))
  {
    if labels == [] {
      InitialSerial(schema, plans, active, boot);
    } else {
      var front, l := labels[..|labels| - 1], labels[|labels| - 1];
      PlaySerial(schema, plans, active, boot, front);
      var s := Play(schema, Initial(plans, active, boot), front);
      if l.who < |s.runs| {
        MoveGood(schema, plans, active, s, l);
        MoveQuiet(schema, plans, active, s, l);
        MoveReplay(schema, plans, active, s, l);
      }
    }
  }

  // ---- which runs committed, and on what ----

  ghost predicate AllTracked(schema: C.Schema, s: System) {
    forall i | 0 <= i < |s.runs| :: s.runs[i].plan.commit && Kept(s.runs[i]) && Tracks(schema, s.runs[i], s.world)
  }

  // The commits so far are those of the committed runs, once each; the latest one
  // decided the active configuration.
  ghost predicate CommitLog(schema: C.Schema, s: System, active: C.Config) {
    var order := s.world.commits;
    && (forall i: nat :: i in order <==> i < |s.runs| && s.runs[i].committed)
    && (forall i, j | 0 <= i < j < |order| :: order[i] != order[j])
    && s.world.active == LastOutcome(schema, s.runs, active, order)
  }

  function LastOutcome(schema: C.Schema, runs: seq<Run>, active: C.Config, order: seq<nat>): C.Config {
    if order == [] || order[|order| - 1] >= |runs| then active
    else var r := runs[order[|order| - 1]]; AfterPlan(schema, r.plan, r.base)
  }

  lemma AdvanceCommits(schema: C.Schema, me: nat, r: Run, w: World, a: Answer)
    requires r.plan.commit && Kept(r)
    ensures var reply := Perform(schema, me, r, w, a); var r' := Advance(r, reply);
      && r'.plan == r.plan
      && (r'.committed <==> r.committed || reply.world.commits != w.commits)
      && (r.committed ==> reply.world.commits == w.commits)
      && (r'.committed ==> r'.base == r.base)
  {
    PerformCommits(schema, me, r, w, a);
    AdvanceCommitted(r, Perform(schema, me, r, w, a));
  }

  lemma PerformCommits(schema: C.Schema, me: nat, r: Run, w: World, a: Answer)
    ensures var reply := Perform(schema, me, r, w, a);
      reply.world.commits != w.commits <==> r.pc.Committing? && reply.fault.NoFault?
  {
  }

  lemma AdvanceCommitted(r: Run, reply: Reply)
    requires r.plan.commit && Kept(r)
    ensures var r' := Advance(r, reply);
      && r'.plan == r.plan && (r'.committed ==> r'.base == r.base)
      && (r'.committed <==> r.committed || (r.pc.Committing? && reply.fault.NoFault?))
      && (r.committed ==> !r.pc.Committing?)
  {
    match r.pc
    case Deleting(k) =>
    case Setting(k) =>
    case Committing =>
    case _ =>
  }

  lemma StepCommits(schema: C.Schema, me: nat, r: Run, w: World, a: Answer)
    requires r.plan.commit && Kept(r)
    ensures var (r', w') := Step(schema, me, r, w, a);
      && r'.plan == r.plan
      && (r'.committed <==> r.committed || w'.commits != w.commits)
      && (r.committed ==> w'.commits == w.commits)
      && (r'.committed ==> r'.base == r.base)
  {
    AdvanceCommits(schema, me, r.(canceled := r.canceled || a.cancel), w, a);
  }

  lemma MoveTracked(schema: C.Schema, s: System, l: Label)
    requires AllLocked(s) && AllTracked(schema, s) && l.who < |s.runs|
    requires Honest(s.runs[l.who], s.world, l.answer)
    ensures AllTracked(schema, Move(schema, s, l))
  {
    var r, w := s.runs[l.who], s.world;
    var w' := Step(schema, l.who, r, w, l.answer).1;
    StepKeeps(schema, l.who, r, w, l.answer);
    StepTracks(schema, l.who, r, w, l.answer);
    StepFramed(schema, l.who, r, w, l.answer);
    forall j | 0 <= j < |s.runs| && j != l.who
      ensures Tracks(schema, s.runs[j], w')
    {
      NeighbourLocked(l.who, r, j, s.runs[j], w, w');
    }
  }

  // One run moves: it commits, or neither it nor the log of commits changes.
  lemma LogMembers(s: System, s': System, who: nat)
    requires who < |s.runs| == |s'.runs| && forall i | 0 <= i < |s.runs| && i != who :: s'.runs[i] == s.runs[i]
    requires var order, order' := s.world.commits, s'.world.commits;
      if order' == order then s'.runs[who].committed == s.runs[who].committed
      else order' == order + [who] && s'.runs[who].committed && !s.runs[who].committed
    requires forall i: nat :: i in s.world.commits <==> i < |s.runs| && s.runs[i].committed
    requires forall i, j | 0 <= i < j < |s.world.commits| :: s.world.commits[i] != s.world.commits[j]
    ensures forall i: nat :: i in s'.world.commits <==> i < |s'.runs| && s'.runs[i].committed
    ensures forall i, j | 0 <= i < j < |s'.world.commits| :: s'.world.commits[i] != s'.world.commits[j]
  {
    var order, order' := s.world.commits, s'.world.commits;
    if order' != order {
      assert forall i: nat :: i in order' <==> i in order || i == who;
      assert who !in order;
    }
  }

  lemma MoveCommitLog(schema: C.Schema, s: System, l: Label, active: C.Config)
    requires AllTracked(schema, s) && CommitLog(schema, s, active) && l.who < |s.runs|
    ensures CommitLog(schema, Move(schema, s, l), active)
  {
    var r, w := s.runs[l.who], s.world;
    var s' := Move(schema, s, l);
    StepCommits(schema, l.who, r, w, l.answer);
    StepFramed(schema, l.who, r, w, l.answer);
    LogMembers(s, s', l.who);
    MoveLastOutcome(schema, s, l, active);
  }

  // A commit makes the plan's outcome on the run's own candidate active.
  lemma StepLast(schema: C.Schema, me: nat, r: Run, w: World, a: Answer)
    requires r.plan.commit && Kept(r) && Tracks(schema, r, w)
    ensures var (r', w') := Step(schema, me, r, w, a);
      && r'.plan == r.plan && (r'.committed ==> r'.base == r.base)
      && (w'.commits == w.commits ==> w'.active == w.active && (r'.committed <==> r.committed))
      && (w'.commits != w.commits ==>
            w'.commits == w.commits + [me] && w'.active == AfterPlan(schema, r.plan, r.base) && r'.committed)
  {
    StepCommits(schema, me, r, w, a);
    StepFramed(schema, me, r, w, a);
  }

  lemma OutcomeStays(schema: C.Schema, runs: seq<Run>, runs': seq<Run>, active: C.Config, order: seq<nat>, who: nat)
    requires who < |runs| == |runs'| && runs' == runs[who := runs'[who]]
    requires runs'[who].plan == runs[who].plan && (runs'[who].committed ==> runs'[who].base == runs[who].base)
    requires forall i | i in order && i < |runs| :: runs'[i].committed
    ensures LastOutcome(schema, runs', active, order) == LastOutcome(schema, runs, active, order)
  {
    if order != [] {
      assert order[|order| - 1] in order;
    }
  }

  lemma MoveLastOutcome(schema: C.Schema, s: System, l: Label, active: C.Config)
    requires AllTracked(schema, s) && CommitLog(schema, s, active) && l.who < |s.runs|
    ensures var s' := Move(schema, s, l);
      s'.world.active == LastOutcome(schema, s'.runs, active, s'.world.commits)
  {
    var s' := Move(schema, s, l);
    StepLast(schema, l.who, s.runs[l.who], s.world, l.answer);
    StepCommits(schema, l.who, s.runs[l.who], s.world, l.answer);
    if s'.world.commits == s.world.commits {
      OutcomeStays(schema, s.runs, s'.runs, active, s.world.commits, l.who);
    }
  }

  lemma {:induction false} PlayCommitLog(
      schema: C.Schema, plans: seq<Plan>, active: C.Config, boot: C.Config, labels: seq<Label>)
    requires forall i | 0 <= i < |plans| :: plans[i].commit
    requires AllHonest(schema, Initial(plans, active, boot), labels)
    ensures var s := Play(schema, Initial(plans, active, boot), labels);
      AllTracked(schema, s) && CommitLog(schema, s, active)
  {
    if labels != [] {
      var front, l := labels[..|labels| - 1], labels[|labels| - 1];
      PlayCommitLog(schema, plans, active, boot, front);
      PlayLocked(schema, plans, active, boot, front);
      var s := Play(schema, Initial(plans, active, boot), front);
      if l.who < |s.runs| {
        MoveTracked(schema, s, l);
        MoveCommitLog(schema, s, l, active);
      }
    }
  }

  lemma {:induction false} PlayPlans(
      schema: C.Schema, plans: seq<Plan>, active: C.Config, boot: C.Config, labels: seq<Label>)
    ensures var s := Play(schema, Initial(plans, active, boot), labels);
      |s.runs| == |plans| && forall i | 0 <= i < |plans| :: s.runs[i].plan == plans[i] && Kept(s.runs[i])
  {
    if labels != [] {
      var n := |labels| - 1;
      PlayPlans(schema, plans, active, boot, labels[..n]);
      var s := Play(schema, Initial(plans, active, boot), labels[..n]);
      if labels[n].who < |s.runs| {
        StepKeeps(schema, labels[n].who, s.runs[labels[n].who], s.world, labels[n].answer);
      }
    }
  }

  // ---- main results ----

  // Runs are serializable: whatever the interleaving and whatever fails, the active
  // configuration is what the committed plans produce one after the other, in
  // commit order, provided no session is left behind with uncommitted changes.
  lemma Serializable(schema: C.Schema, plans: seq<Plan>, active: C.Config, boot: C.Config, labels: seq<Label>)
    requires forall i | 0 <= i < |plans| :: plans[i].commit
    requires AllHonest(schema, Initial(plans, active, boot), labels)
    requires AllCleanUp(schema, Initial(plans, active, boot), labels)
    ensures var s := Play(schema, Initial(plans, active, boot), labels);
      var order := s.world.commits;
      && s.world.active == Replay(schema, plans, active, order)
      && (forall i: nat :: i in order <==> i < |s.runs| && s.runs[i].applied)
      && (forall i, j | 0 <= i < j < |order| :: order[i] != order[j])
  {
    PlaySerial(schema, plans, active, boot, labels);
    PlayCommitLog(schema, plans, active, boot, labels);
    AppliedIsCommitted(schema, Play(schema, Initial(plans, active, boot), labels), active);
  }

  // Even when cleanups fail, the active configuration is always the initial one or
  // what the plan of the latest applied run made of the candidate it began with.
  lemma LastAppliedWins(schema: C.Schema, plans: seq<Plan>, active: C.Config, boot: C.Config, labels: seq<Label>)
    requires forall i | 0 <= i < |plans| :: plans[i].commit
    requires AllHonest(schema, Initial(plans, active, boot), labels)
    ensures var s := Play(schema, Initial(plans, active, boot), labels);
      && s.world.active == LastOutcome(schema, s.runs, active, s.world.commits)
      && (forall i: nat :: i in s.world.commits <==> i < |s.runs| && s.runs[i].applied)
  {
    PlayCommitLog(schema, plans, active, boot, labels);
    AppliedIsCommitted(schema, Play(schema, Initial(plans, active, boot), labels), active);
  }

  lemma AppliedIsCommitted(schema: C.Schema, s: System, active: C.Config)
    requires AllTracked(schema, s) && CommitLog(schema, s, active)
    ensures forall i: nat :: i in s.world.commits <==> i < |s.runs| && s.runs[i].applied
  {
    forall i: nat
      ensures i in s.world.commits <==> i < |s.runs| && s.runs[i].applied
    {
      if i < |s.runs| {
        assert Kept(s.runs[i]);
      }
    }
  }

  // The candidate a session began with and the active configuration agree on the
  // surviving paths that the plan does not produce itself.
  ghost predicate Agrees(schema: C.Schema, r: Run, w: World) {
    var roots, paths := PathsOf(r.plan.deletes), PathsOf(r.plan.sets);
    C.Kept(schema, r.base, roots, paths) - C.SetAll(schema, {}, paths)
      == C.Kept(schema, w.active, roots, paths) - C.SetAll(schema, {}, paths)
  }

  // The commit of a run has the effect of its plan on the active configuration
  // exactly if they agree.
  lemma CommitExact(schema: C.Schema, me: nat, r: Run, w: World, a: Answer)
    requires r.pc.Committing? && Tracks(schema, r, w) && !r.canceled && !a.cancel && a.fault.NoFault?
    ensures Step(schema, me, r, w, a).1.active == AfterPlan(schema, r.plan, w.active) <==> Agrees(schema, r, w)
  {
    C.ReplaceAgrees(schema, r.base, w.active, PathsOf(r.plan.deletes), PathsOf(r.plan.sets));
  }

  // At every commit so far they agreed.
  ghost predicate CommitsAgree(schema: C.Schema, s: System, labels: seq<Label>) {
    labels != [] ==>
      var front, l := labels[..|labels| - 1], labels[|labels| - 1];
      var before := Play(schema, s, front);
      && CommitsAgree(schema, s, front)
      && (Play(schema, s, labels).world.commits != before.world.commits && l.who < |before.runs| ==>
            Agrees(schema, before.runs[l.who], before.world))
  }

  // At every point so far the active configuration was that of the serial execution.
  ghost predicate AlwaysSerial(schema: C.Schema, plans: seq<Plan>, s: System, labels: seq<Label>) {
    labels != [] ==>
      var after := Play(schema, s, labels);
      && AlwaysSerial(schema, plans, s, labels[..|labels| - 1])
      && after.world.active == Replay(schema, plans, s.world.active, after.world.commits)
  }

  lemma CommitReplays(schema: C.Schema, plans: seq<Plan>, c: C.Config, me: nat, r: Run, w: World, a: Answer)
    requires r.plan.commit && Kept(r) && Tracks(schema, r, w) && me < |plans| && r.plan == plans[me]
    requires w.active == Replay(schema, plans, c, w.commits)
    ensures var w' := Step(schema, me, r, w, a).1;
      w'.active == Replay(schema, plans, c, w'.commits) <==> w'.commits == w.commits || Agrees(schema, r, w)
  {
    StepLast(schema, me, r, w, a);
    ReplayExtends(schema, plans, c, w.commits, me);
    C.ReplaceAgrees(schema, r.base, w.active, PathsOf(r.plan.deletes), PathsOf(r.plan.sets));
  }

  // Serializability, exactly: whatever fails, the active configuration is always that
  // of the serial execution if and only if at every commit the session's first
  // candidate agreed with the active configuration.
  lemma {:induction false} SerializableExactly(
      schema: C.Schema, plans: seq<Plan>, active: C.Config, boot: C.Config, labels: seq<Label>)
    requires forall i | 0 <= i < |plans| :: plans[i].commit
    requires AllHonest(schema, Initial(plans, active, boot), labels)
    ensures AlwaysSerial(schema, plans, Initial(plans, active, boot), labels)
      <==> CommitsAgree(schema, Initial(plans, active, boot), labels)
  {
    if labels != [] {
      var front, l := labels[..|labels| - 1], labels[|labels| - 1];
      var s0 := Initial(plans, active, boot);
      var s := Play(schema, s0, front);
      SerializableExactly(schema, plans, active, boot, front);
      if AlwaysSerial(schema, plans, s0, front) {
        PlayCommitLog(schema, plans, active, boot, front);
        PlayPlans(schema, plans, active, boot, front);
        NowSerial(schema, plans, s0, front);
        if l.who < |s.runs| {
          assert Kept(s.runs[l.who]) && Tracks(schema, s.runs[l.who], s.world);
          CommitReplays(schema, plans, active, l.who, s.runs[l.who], s.world, l.answer);
        }
      }
    }
  }

  lemma NowSerial(schema: C.Schema, plans: seq<Plan>, s: System, labels: seq<Label>)
    requires AlwaysSerial(schema, plans, s, labels) && s.world.commits == []
    ensures var after := Play(schema, s, labels).world;
      after.active == Replay(schema, plans, s.world.active, after.commits)
  {
  }

  // ---- the steps of one run ----

  // Consecutive steps of one run.
  function Solo(schema: C.Schema, me: nat, r: Run, w: World, answers: seq<Answer>): (Run, World) {
    if answers == [] then (r, w)
    else
      var n := |answers| - 1;
      var (r, w) := Solo(schema, me, r, w, answers[..n]);
      Step(schema, me, r, w, answers[n])
  }

  function LabelsOf(who: nat, answers: seq<Answer>): seq<Label> {
    seq(|answers|, i requires 0 <= i < |answers| => Label(who, answers[i]))
  }

  lemma {:induction false} SoloPlay(schema: C.Schema, s: System, who: nat, answers: seq<Answer>)
    requires who < |s.runs|
    ensures var (r, w) := Solo(schema, who, s.runs[who], s.world, answers);
      Play(schema, s, LabelsOf(who, answers)) == System(s.runs[who := r], w)
  {
    if answers == [] {
      assert s.runs[who := s.runs[who]] == s.runs;
    } else {
      var n := |answers| - 1;
      SoloPlay(schema, s, who, answers[..n]);
      assert LabelsOf(who, answers)[..n] == LabelsOf(who, answers[..n]);
    }
  }

  lemma {:induction false} PlayConcat(schema: C.Schema, s: System, a: seq<Label>, b: seq<Label>)
    ensures Play(schema, s, a + b) == Play(schema, Play(schema, s, a), b)
  {
    if b == [] {
      assert a + b == a;
    } else {
      var n := |b| - 1;
      PlayConcat(schema, s, a, b[..n]);
      assert (a + b)[..|a + b| - 1] == a + b[..n];
    }
  }

  lemma SoloNext(schema: C.Schema, me: nat, r: Run, w: World, answers: seq<Answer>, a: Answer)
    ensures var (r1, w1) := Solo(schema, me, r, w, answers);
      Solo(schema, me, r, w, answers + [a]) == Step(schema, me, r1, w1, a)
  {
    assert (answers + [a])[..|answers|] == answers;
  }

  lemma {:induction false} SoloConcat(schema: C.Schema, me: nat, r: Run, w: World, a: seq<Answer>, b: seq<Answer>)
    ensures var (r1, w1) := Solo(schema, me, r, w, a);
      Solo(schema, me, r, w, a + b) == Solo(schema, me, r1, w1, b)
  {
    if b == [] {
      assert a + b == a;
    } else {
      var n := |b| - 1;
      SoloConcat(schema, me, r, w, a, b[..n]);
      assert (a + b)[..|a + b| - 1] == a + b[..n];
    }
  }
}
