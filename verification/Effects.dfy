// What an execution does to the active configuration, whatever world it meets.
module Effects {
  import C = Config
  import opened Transaction
  import opened RunProperties
  import opened Histories
  import opened Concurrency

  // The world in which the run took the lock or, if it has not, last looked for it.
  function Found(h: History): World
    requires h != []
  {
    if |h| == 1 || Last(h).0.pc.Start? || Last(h).0.pc.Locking? then Last(h).1 else Found(h[..|h| - 1])
  }

  // No step but the first leads back to looking for the lock, none but the begin of a
  // session changes the candidate it began with, and none but a save saves.
  ghost predicate Forward(r: Run, r': Run) {
    && !r'.pc.Start? && !r'.pc.Locking?
    && (!r.pc.Beginning? ==> r'.base == r.base) && (!r.pc.Saving? ==> r'.saved == r.saved)
  }

  lemma OnwardForward(r: Run, k: nat)
    ensures Forward(r.(pc := Done), ToSet(r, k)) && Forward(r.(pc := Done), ToDelete(r, k))
  {
  }

  lemma LockForward(r: Run, reply: Reply)
    ensures Forward(r, AfterLock(r, reply))
  {
  }

  lemma BeginForward(r: Run, reply: Reply)
    requires r.pc.Beginning?
    ensures Forward(r, AfterBegin(r, reply))
  {
    OnwardForward(Log(r, Begin, reply).(base := reply.world.Candidate()), 0);
  }

  lemma DeleteForward(r: Run, k: nat, reply: Reply)
    ensures Forward(r, AfterDelete(r, k, reply))
  {
    OnwardForward(Log(r, Delete(k), reply), k + 1);
  }

  lemma SetForward(r: Run, k: nat, reply: Reply)
    ensures Forward(r, AfterSet(r, k, reply))
  {
    OnwardForward(Log(r, Set(k), reply), k + 1);
  }

  lemma CommitForward(r: Run, reply: Reply)
    ensures Forward(r, AfterCommit(r, reply))
  {
  }

  lemma SaveForward(r: Run, reply: Reply)
    requires r.pc.Saving?
    ensures Forward(r, AfterSave(r, reply))
  {
  }

  lemma DiscardForward(r: Run, explicit: bool, reply: Reply)
    ensures Forward(r, AfterDiscard(r, explicit, reply))
  {
  }

  lemma EndForward(r: Run, reply: Reply)
    ensures Forward(r, AfterClose(r, reply)) && Forward(r, AfterRelease(r, reply))
  {
  }

  lemma AdvanceForward(r: Run, reply: Reply)
    requires !r.pc.Start?
    ensures Forward(r, Advance(r, reply))
  {
    match r.pc
    case Locking => LockForward(r, reply);
    case Beginning => BeginForward(r, reply);
    case Deleting(k) => DeleteForward(r, k, reply);
    case Setting(k) => SetForward(r, k, reply);
    case Committing => CommitForward(r, reply);
    case Saving => SaveForward(r, reply);
    case Discarding(explicit) => DiscardForward(r, explicit, reply);
    case Done =>
    case _ => EndForward(r, reply);
  }

  lemma StopForward(r: Run)
    ensures Polls(r.pc) ==> Forward(r, Interrupt(r))
    ensures Forward(r, GiveUp(r))
  {
  }

  lemma StepForward(schema: C.Schema, me: nat, r: Run, w: World, a: Answer)
    requires !r.pc.Start? && (r.pc.Locking? ==> w.lock.None?)
    ensures Forward(r, Step(schema, me, r, w, a).0)
  {
    var now := r.(canceled := r.canceled || a.cancel);
    AdvanceForward(now, Perform(schema, me, now, w, a));
    StopForward(now);
  }

  lemma StaysOutside(env: Env, k: nat, r: Run, w: World)
    requires w.lock.None? || (!r.pc.Start? && !r.pc.Locking?)
    ensures var (r', w') := After(env, k, r, w);
      r'.pc.Start? || r'.pc.Locking? ==> r.pc.Start? && w' == w
  {
    if !r.pc.Start? {
      StepForward(env.schema, env.me, r, w, Interpret(r.pc, env.script(k)));
    }
  }

  ghost predicate HonestAt(env: Env, h: History, k: nat)
    requires k < |h|
  {
    Honest(h[k].0, h[k].1, Interpret(h[k].0.pc, env.script(k)))
  }

  // The device reported only deletes of missing nodes as such.
  ghost predicate HonestDevice(env: Env, h: History) {
    forall k | 0 <= k < |h| - 1 :: HonestAt(env, h, k)
  }

  lemma Before(env: Env, h: History) returns (front: History)
    requires IsHistory(env, h) && |h| > 1
    ensures front == h[..|h| - 1] && IsHistory(env, front)
    ensures Last(h) == After(env, |h| - 2, Last(front).0, Last(front).1)
  {
    front := h[..|h| - 1];
    forall k | 0 <= k < |front| - 1
      ensures Linked(env, front, k)
    {
      assert Linked(env, h, k);
    }
    assert Linked(env, h, |h| - 2);
  }

  predicate Outside(r: Run) {
    r.pc.Start? || r.pc.Locking?
  }

  // A step keeps a property of the run, its world, and the world it found.
  ghost predicate KeptBy(env: Env, k: nat, r: Run, w: World, found: World, inv: (Run, World, World) -> bool) {
    inv(r, w, found) ==>
      var next := After(env, k, r, w);
      inv(next.0, next.1, if Outside(next.0) then next.1 else found)
  }

  // What the first world satisfies and every step keeps holds at the end.
  lemma {:induction false} Induct(env: Env, h: History, ok: (nat, Run, World) -> bool, inv: (Run, World, World) -> bool)
    requires IsHistory(env, h) && inv(Fresh(env.plan), env.first, env.first)
    requires forall k: nat | k < |h| - 1 :: ok(k, h[k].0, h[k].1)
    requires forall k: nat, r, w, found | ok(k, r, w) :: KeptBy(env, k, r, w, found, inv)
    ensures inv(Last(h).0, Last(h).1, Found(h))
  {
    if |h| > 1 {
      var front := Before(env, h);
      Induct(env, front, ok, inv);
      assert KeptBy(env, |h| - 2, Last(front).0, Last(front).1, Found(front), inv);
    }
  }

  // A lock that is free is taken in the first world.
  ghost predicate AtFirst(first: World, r: Run, w: World, found: World) {
    found == first && (Outside(r) ==> w == first)
  }

  lemma FoundFirst(env: Env, h: History)
    requires IsHistory(env, h) && env.first.lock.None?
    ensures Found(h) == env.first
  {
    var inv := (r: Run, w: World, found: World) => AtFirst(env.first, r, w, found);
    forall k: nat, r, w, found
      ensures KeptBy(env, k, r, w, found, inv)
    {
      if AtFirst(env.first, r, w, found) {
        AfterOutside(env, k, r, w);
      }
    }
    Induct(env, h, (k, r, w) => true, inv);
  }

  lemma AfterOutside(env: Env, k: nat, r: Run, w: World)
    requires Outside(r) ==> w.lock.None?
    ensures var (r', w') := After(env, k, r, w); Outside(r') ==> Outside(r) && w' == w
  {
    StaysOutside(env, k, r, w);
  }

  // ---- all or nothing ----

  ghost predicate Untouched(r: Run, w: World, found: World) {
    !r.committed ==> w.active == found.active
  }

  lemma StepUntouched(schema: C.Schema, me: nat, r: Run, w: World, a: Answer, found: World)
    requires r.plan.commit && Kept(r) && Untouched(r, w, found)
    ensures var (r', w') := Step(schema, me, r, w, a); Untouched(r', w', found)
  {
    StepCommits(schema, me, r, w, a);
    StepFramed(schema, me, r, w, a);
  }

  ghost predicate Undone(plan: Plan, r: Run, w: World, found: World) {
    r.plan == plan && plan.commit && Kept(r) && Untouched(r, w, found)
  }

  lemma AfterUndone(env: Env, k: nat, r: Run, w: World, found: World)
    requires Undone(env.plan, r, w, found)
    ensures var next := After(env, k, r, w);
      Undone(env.plan, next.0, next.1, if Outside(next.0) then next.1 else found)
  {
    var a := Interpret(r.pc, env.script(k));
    StepKeeps(env.schema, env.me, r, w, a);
    if !After(env, k, r, w).0.pc.Locking? {
      NotWaiting(env, k, r, w);
      StepUntouched(env.schema, env.me, r, w, a, found);
    }
  }

  // An execution that is not applied leaves the active configuration as it found it.
  lemma NothingUnlessApplied(env: Env, h: History)
    requires IsHistory(env, h) && env.plan.commit
    ensures Kept(Last(h).0) && Last(h).0.plan == env.plan
    ensures !Last(h).0.applied ==> Last(h).1.active == Found(h).active
  {
    var inv := (r: Run, w: World, found: World) => Undone(env.plan, r, w, found);
    forall k: nat, r, w, found
      ensures KeptBy(env, k, r, w, found, inv)
    {
      if Undone(env.plan, r, w, found) {
        AfterUndone(env, k, r, w, found);
      }
    }
    Induct(env, h, (k, r, w) => true, inv);
  }

  lemma NotWaiting(env: Env, k: nat, r: Run, w: World)
    requires !After(env, k, r, w).0.pc.Locking?
    ensures After(env, k, r, w) == Step(env.schema, env.me, r, w, Interpret(r.pc, env.script(k)))
  {
  }

  ghost predicate HasEffect(schema: C.Schema, r: Run, w: World) {
    Tracks(schema, r, w) && (r.committed ==> w.active == AfterPlan(schema, r.plan, r.base))
  }

  lemma StepEffect(schema: C.Schema, me: nat, r: Run, w: World, a: Answer)
    requires r.plan.commit && Kept(r) && HasEffect(schema, r, w) && Honest(r, w, a)
    ensures var (r', w') := Step(schema, me, r, w, a); HasEffect(schema, r', w')
  {
    StepTracks(schema, me, r, w, a);
    StepLast(schema, me, r, w, a);
    StepCommits(schema, me, r, w, a);
  }

  ghost predicate Sound(env: Env, r: Run, w: World) {
    r.plan == env.plan && env.plan.commit && Kept(r) && HasEffect(env.schema, r, w)
  }

  lemma AfterSound(env: Env, k: nat, r: Run, w: World)
    requires Sound(env, r, w) && Honest(r, w, Interpret(r.pc, env.script(k)))
    ensures var next := After(env, k, r, w); Sound(env, next.0, next.1)
  {
    StepKeeps(env.schema, env.me, r, w, Interpret(r.pc, env.script(k)));
    if After(env, k, r, w).0.pc.Locking? {
      StillOutside(env, k, r, w);
    } else {
      NotWaiting(env, k, r, w);
      StepEffect(env.schema, env.me, r, w, Interpret(r.pc, env.script(k)));
    }
  }

  // One that is applied leaves what its plan makes of the candidate its session began
  // with.
  lemma AppliedEffect(env: Env, h: History)
    requires IsHistory(env, h) && env.plan.commit && HonestDevice(env, h)
    ensures Last(h).0.applied ==> Last(h).1.active == AfterPlan(env.schema, env.plan, Last(h).0.base)
  {
    var ok := (k: nat, r: Run, w: World) => Honest(r, w, Interpret(r.pc, env.script(k)));
    var inv := (r: Run, w: World, found: World) => Sound(env, r, w);
    forall k: nat, r, w, found | ok(k, r, w)
      ensures KeptBy(env, k, r, w, found, inv)
    {
      if Sound(env, r, w) {
        AfterSound(env, k, r, w);
      }
    }
    forall k: nat | k < |h| - 1
      ensures ok(k, h[k].0, h[k].1)
    {
      assert HonestAt(env, h, k);
    }
    Induct(env, h, ok, inv);
  }

  // A run that looks for the lock has done nothing yet.
  lemma StillOutside(env: Env, k: nat, r: Run, w: World)
    requires Kept(r) && After(env, k, r, w).0.pc.Locking?
    ensures !After(env, k, r, w).0.committed
  {
    StepKeeps(env.schema, env.me, r, w, Interpret(r.pc, env.script(k)));
  }

  // ---- the boot configuration ----

  ghost predicate Booted(r: Run, w: World, found: World) {
    w.boot == if r.saved then w.active else found.boot
  }

  lemma StepBootFrame(schema: C.Schema, me: nat, r: Run, w: World, a: Answer)
    requires !r.pc.Saving?
    ensures Step(schema, me, r, w, a).1.boot == w.boot
  {
  }

  lemma StepSavedFrame(schema: C.Schema, me: nat, r: Run, w: World, a: Answer)
    requires !r.pc.Saving?
    ensures Step(schema, me, r, w, a).0.saved == r.saved
  {
    if !r.pc.Start? && (r.pc.Locking? ==> w.lock.None?) {
      StepForward(schema, me, r, w, a);
    }
  }

  lemma SavingStep(schema: C.Schema, me: nat, r: Run, w: World, a: Answer)
    requires r.pc.Saving?
    ensures var (r', w') := Step(schema, me, r, w, a);
      && w'.active == w.active
      && ((r'.saved && w'.boot == w.active) || (r'.saved == r.saved && w'.boot == w.boot))
  {
  }

  // Only a save changes it, and makes it the active configuration, which then stays.
  lemma StepBoot(schema: C.Schema, me: nat, r: Run, w: World, a: Answer, found: World)
    requires r.plan.commit && Kept(r)
    ensures var (r', w') := Step(schema, me, r, w, a);
      && (w'.boot != w.boot ==> r.pc.Saving? && r'.saved && w'.boot == w'.active)
      && (Booted(r, w, found) ==> Booted(r', w', found))
  {
    StepCommits(schema, me, r, w, a);
    StepFramed(schema, me, r, w, a);
    if r.pc.Saving? {
      SavingStep(schema, me, r, w, a);
    } else {
      StepBootFrame(schema, me, r, w, a);
      StepSavedFrame(schema, me, r, w, a);
    }
  }

  ghost predicate Saves(plan: Plan, r: Run, w: World, found: World) {
    r.plan == plan && plan.commit && Kept(r) && Booted(r, w, found)
  }

  lemma AfterSaves(env: Env, k: nat, r: Run, w: World, found: World)
    requires Saves(env.plan, r, w, found)
    ensures var next := After(env, k, r, w);
      Saves(env.plan, next.0, next.1, if Outside(next.0) then next.1 else found)
  {
    var a := Interpret(r.pc, env.script(k));
    StepKeeps(env.schema, env.me, r, w, a);
    if !After(env, k, r, w).0.pc.Locking? {
      NotWaiting(env, k, r, w);
      StepBoot(env.schema, env.me, r, w, a, found);
    }
  }

  // A saved execution leaves the active configuration as the boot configuration; any
  // other one leaves the boot configuration that it found.
  lemma BootExactly(env: Env, h: History)
    requires IsHistory(env, h) && env.plan.commit
    ensures Last(h).1.boot == if Last(h).0.saved then Last(h).1.active else Found(h).boot
  {
    var inv := (r: Run, w: World, found: World) => Saves(env.plan, r, w, found);
    forall k: nat, r, w, found
      ensures KeptBy(env, k, r, w, found, inv)
    {
      if Saves(env.plan, r, w, found) {
        AfterSaves(env, k, r, w, found);
      }
    }
    Induct(env, h, (k, r, w) => true, inv);
  }

  // ---- the candidate a session begins with ----

  ghost predicate Begins(r: Run, w: World, found: World) {
    && (r.pc.Beginning? ==> w.active == found.active && w.Candidate() == found.Candidate())
    && (InSession(r.pc) || r.committed ==> r.base == found.active || r.base == found.Candidate())
  }

  lemma StepBase(schema: C.Schema, me: nat, r: Run, w: World, a: Answer)
    requires !r.pc.Beginning? && !r.pc.Start? && !r.pc.Locking?
    ensures Step(schema, me, r, w, a).0.base == r.base
  {
    StepForward(schema, me, r, w, a);
  }

  lemma StepInside(schema: C.Schema, me: nat, r: Run, w: World, a: Answer)
    requires r.plan.commit && Kept(r)
    ensures var r' := Step(schema, me, r, w, a).0;
      && (InSession(r'.pc) || r'.committed ==> r.pc.Beginning? || InSession(r.pc) || r.committed)
      && (r'.pc.Beginning? ==> r.pc.Locking? || r.pc.Beginning?)
  {
    StepCommits(schema, me, r, w, a);
    StepFramed(schema, me, r, w, a);
  }

  lemma TakesLock(schema: C.Schema, me: nat, r: Run, w: World, a: Answer)
    requires r.pc.Locking?
    ensures var (r', w') := Step(schema, me, r, w, a); w'.active == w.active && w'.Candidate() == w.Candidate()
  {
  }

  lemma BeginsSession(schema: C.Schema, me: nat, r: Run, w: World, a: Answer)
    requires r.pc.Beginning? && !r.committed && r.plan.commit
    ensures var r' := Step(schema, me, r, w, a).0;
      && !r'.pc.Beginning? && !r'.committed
      && (InSession(r'.pc) ==> r'.base == w.active || r'.base == w.Candidate())
  {
  }

  lemma StepBegins(schema: C.Schema, me: nat, r: Run, w: World, a: Answer, found: World)
    requires r.plan.commit && Kept(r) && Begins(r, w, found) && (r.pc.Locking? ==> found == w)
    ensures var (r', w') := Step(schema, me, r, w, a); Begins(r', w', found)
  {
    StepInside(schema, me, r, w, a);
    if r.pc.Locking? {
      TakesLock(schema, me, r, w, a);
    } else if r.pc.Beginning? {
      BeginsSession(schema, me, r, w, a);
    } else if !r.pc.Start? {
      StepBase(schema, me, r, w, a);
    }
  }

  lemma AfterBegins(env: Env, k: nat, r: Run, w: World, found: World)
    requires r.plan.commit && Kept(r) && Begins(r, w, found) && (r.pc.Locking? ==> found == w)
    requires !After(env, k, r, w).0.pc.Locking?
    ensures var (r', w') := After(env, k, r, w); Begins(r', w', found)
  {
    NotWaiting(env, k, r, w);
    StepBegins(env.schema, env.me, r, w, Interpret(r.pc, env.script(k)), found);
  }

  lemma OutsideBegins(r: Run, w: World, found: World)
    requires Kept(r) && (r.pc.Start? || r.pc.Locking?)
    ensures Begins(r, w, found)
  {
  }

  ghost predicate Begun(plan: Plan, r: Run, w: World, found: World) {
    r.plan == plan && plan.commit && Kept(r) && Begins(r, w, found) && (Outside(r) ==> found == w)
  }

  lemma AfterBegun(env: Env, k: nat, r: Run, w: World, found: World)
    requires Begun(env.plan, r, w, found)
    ensures var next := After(env, k, r, w);
      Begun(env.plan, next.0, next.1, if Outside(next.0) then next.1 else found)
  {
    var next := After(env, k, r, w);
    StepKeeps(env.schema, env.me, r, w, Interpret(r.pc, env.script(k)));
    if Outside(next.0) {
      OutsideBegins(next.0, next.1, next.1);
    } else {
      AfterBegins(env, k, r, w, found);
    }
  }

  // A session begins with the active configuration it found or with the candidate it
  // found.
  lemma BaseFound(env: Env, h: History)
    requires IsHistory(env, h) && env.plan.commit
    ensures Begins(Last(h).0, Last(h).1, Found(h))
  {
    var inv := (r: Run, w: World, found: World) => Begun(env.plan, r, w, found);
    forall k: nat, r, w, found
      ensures KeptBy(env, k, r, w, found, inv)
    {
      if Begun(env.plan, r, w, found) {
        AfterBegun(env, k, r, w, found);
      }
    }
    Induct(env, h, (k, r, w) => true, inv);
  }

  lemma AppliedBase(env: Env, h: History)
    requires IsHistory(env, h) && env.plan.commit && Last(h).0.applied
    ensures Last(h).0.base == Found(h).active || Last(h).0.base == Found(h).Candidate()
  {
    NothingUnlessApplied(env, h);
    BaseFound(env, h);
  }
}
