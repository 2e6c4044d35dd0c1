// What a session that is left behind does: the executions that need the assumptions on
// cleanups, with plans that the planner builds.
module StaleSessions {
  import opened Wrappers
  import C = Config
  import opened Transaction
  import opened RunProperties
  import opened Concurrency
  import Reconcile
  import Policy
  import Planner
  import RenderData
  import Decimal
  import Tokenizer
  import opened Templates
  import RoundTrip
  import Rendering
  import Normalization

  // ---- plans from lines ----

  function Roots(): seq<Option<C.Path>> {
    seq(|Reconcile.MANAGED|, i requires 0 <= i < |Reconcile.MANAGED| => Some(Reconcile.MANAGED[i]))
  }

  // The plan prepared from some lines under the default policy.
  function PlanOf(lines: seq<Line>): Plan {
    Plan(Roots(), Normalization.SetPaths(lines), true, false)
  }

  lemma RootsDecode(deletes: seq<string>)
    requires |deletes| == |Policy.DEFAULT_ROOTS|
    requires forall i | 0 <= i < |deletes| :: deletes[i] == Policy.DeleteCommand(Policy.DEFAULT_ROOTS[i])
    ensures Planner.DecodeAll("delete", deletes) == Roots()
  {
    Reconcile.DefaultRoots();
    forall i | 0 <= i < |deletes|
      ensures Planner.DecodeAll("delete", deletes)[i] == Roots()[i]
    {
      assert Policy.DEFAULT_ROOTS[i] in Policy.DEFAULT_ROOTS;
      Planner.DecodedDelete(Policy.DEFAULT_ROOTS[i]);
    }
  }

  lemma LinesRunnable(lines: seq<Line>)
    requires RoundTrip.AllGood(lines)
    ensures Runnable(PlanOf(lines))
  {
    forall i | 0 <= i < |lines|
      ensures Normalization.SetPath(lines[i]).Some?
    {
      assert RoundTrip.GoodLine(lines[i]);
    }
  }

  lemma LinesPlan(lines: seq<Line>, text: Planner.TextPlan, input: Planner.Input)
    requires RoundTrip.AllGood(lines) && !RoundTrip.AnyDirty(lines) && lines != []
    requires input == Planner.Input("vyos", "u", Unlines(Printed(lines)))
    requires text == Planner.TextPlan("vyos", "u", text.deletes, Printed(lines), true, false)
    requires |text.deletes| == |Policy.DEFAULT_ROOTS|
    requires forall i | 0 <= i < |text.deletes| :: text.deletes[i] == Policy.DeleteCommand(Policy.DEFAULT_ROOTS[i])
    ensures Planner.IsPlanFor(text, input, Policy.DEFAULT_ROOTS, false) && Planner.Decode(text) == PlanOf(lines)
  {
    RoundTrip.PrintedLines(lines);
    Normalization.LinesAreRun(lines);
    RootsDecode(text.deletes);
  }

  lemma IsDefault(text: Planner.TextPlan, input: Planner.Input)
    requires Planner.IsPlanFor(text, input, Policy.DEFAULT_ROOTS, false)
    ensures Reconcile.IsDefaultPlan(Planner.Decode(text))
  {
  }

  lemma PlanOfIsDefault(lines: seq<Line>)
    requires RoundTrip.AllGood(lines) && !RoundTrip.AnyDirty(lines) && lines != []
    ensures Reconcile.IsDefaultPlan(PlanOf(lines)) && Runnable(PlanOf(lines))
  {
    var roots := Policy.DEFAULT_ROOTS;
    var deletes := seq(|roots|, i requires 0 <= i < |roots| => Policy.DeleteCommand(roots[i]));
    var text := Planner.TextPlan("vyos", "u", deletes, Printed(lines), true, false);
    var input := Planner.Input("vyos", "u", Unlines(Printed(lines)));
    LinesPlan(lines, text, input);
    IsDefault(text, input);
    LinesRunnable(lines);
  }

  // ---- scripts ----

  function Oks(n: nat): seq<Answer> {
    if n == 0 then [] else Oks(n - 1) + [OK]
  }

  function Begins(begin: Answer): seq<Answer> {
    [] + [OK] + [OK] + [begin]
  }

  // Start, lock, begin, and n commands that succeed.
  function Opening(begin: Answer, n: nat): seq<Answer> {
    Begins(begin) + Oks(n)
  }

  const RESUME := OK.(choice := true)

  function Bad(wreck: C.Config): Answer {
    Answer(false, OtherFault(""), "", wreck, false)
  }

  // The last set fails, and so do the discard and the close.
  function Abandon(plan: Plan, wreck: C.Config): seq<Answer>
    requires Size(plan) > 0
  {
    Opening(OK, Size(plan) - 1) + Failures(wreck)
  }

  function Failures(wreck: C.Config): seq<Answer> {
    [] + [Bad(wreck)] + [Bad(wreck)] + [Bad(wreck)] + [OK]
  }

  // The session left behind is found again, and everything succeeds.
  function Resume(plan: Plan): seq<Answer> {
    Opening(RESUME, Size(plan)) + [OK]
  }

  // Only the lock, which the run holds, and the candidate have changed.
  ghost predicate Underway(me: nat, w: World, w': World) {
    w' == w.(lock := Some(me), overlay := w'.overlay)
  }

  lemma Locks(schema: C.Schema, me: nat, plan: Plan, w: World) returns (r: Run)
    requires w.lock.None?
    ensures Solo(schema, me, Fresh(plan), w, [] + [OK] + [OK]) == (r, w.(lock := Some(me)))
    ensures r.pc == Beginning && r.plan == plan && !r.canceled && !r.committed && !r.applied
  {
    SoloNext(schema, me, Fresh(plan), w, [], OK);
    Starts(schema, me, plan, w);
    SoloNext(schema, me, Fresh(plan), w, [] + [OK], OK);
    r := TakesLock(schema, me, Fresh(plan).(pc := Locking), w);
  }

  lemma Starts(schema: C.Schema, me: nat, plan: Plan, w: World)
    ensures Step(schema, me, Fresh(plan), w, OK) == (Fresh(plan).(pc := Locking), w)
  {
  }

  lemma TakesLock(schema: C.Schema, me: nat, r: Run, w: World) returns (r': Run)
    requires w.lock.None? && r.pc == Locking && !r.canceled && !r.committed && !r.applied
    ensures Step(schema, me, r, w, OK) == (r', w.(lock := Some(me)))
    ensures r'.pc == Beginning && r'.plan == r.plan && !r'.canceled && !r'.committed && !r'.applied
  {
    r' := AfterLock(r, Reply(NoFault, "", w.(lock := Some(me))));
  }

  lemma Opens(schema: C.Schema, me: nat, r: Run, w: World, begin: Answer) returns (r': Run)
    requires r.pc == Beginning && !r.canceled && !r.committed && !r.applied && (begin == OK || begin == RESUME)
    ensures var base := if begin.choice then w.Candidate() else w.active;
      Step(schema, me, r, w, begin) == (Onward(r', 0), w.(overlay := Some(base))) && Going(r', r.plan, base)
  {
    var base := if begin.choice then w.Candidate() else w.active;
    var reply := Reply(NoFault, "", w.(overlay := Some(base)));
    r' := Log(r, Begin, reply).(base := base);
    assert Step(schema, me, r, w, begin) == (Onward(r', 0), reply.world);
  }

  lemma OkWorld(schema: C.Schema, me: nat, r: Run, w: World, n: nat)
    requires Runnable(r.plan) && n < Size(r.plan) && Going(r, r.plan, r.base)
    ensures var w' := Step(schema, me, Onward(r, n), w, OK).1; w' == w.(overlay := w'.overlay)
  {
  }

  lemma BeginSolo(schema: C.Schema, me: nat, plan: Plan, w: World, begin: Answer) returns (r: Run, w': World)
    requires w.lock.None? && (begin == OK || begin == RESUME)
    ensures Solo(schema, me, Fresh(plan), w, Begins(begin)) == (Onward(r, 0), w')
    ensures Going(r, plan, if begin.choice then w.Candidate() else w.active) && Underway(me, w, w')
  {
    var r2 := Locks(schema, me, plan, w);
    SoloNext(schema, me, Fresh(plan), w, [] + [OK] + [OK], begin);
    r := Opens(schema, me, r2, w.(lock := Some(me)), begin);
    w' := Step(schema, me, r2, w.(lock := Some(me)), begin).1;
  }

  // The run when k of its commands are done, with only the candidate changed.
  ghost predicate Partway(plan: Plan, base: C.Config, w0: World, k: nat, now: (Run, World)) {
    && now.1 == w0.(overlay := now.1.overlay)
    && exists r :: now.0 == Onward(r, k) && Going(r, plan, base)
  }

  lemma PartwayNext(schema: C.Schema, me: nat, plan: Plan, base: C.Config, w0: World, k: nat, now: (Run, World))
    requires Runnable(plan) && k < Size(plan) && Partway(plan, base, w0, k, now)
    ensures Partway(plan, base, w0, k + 1, Step(schema, me, now.0, now.1, OK))
  {
    var r :| now.0 == Onward(r, k) && Going(r, plan, base);
    var r' := OkCommand(schema, me, r, now.1, k);
    OkWorld(schema, me, r, now.1, k);
  }

  // What every successful call keeps holds after all of them.
  lemma {:induction false} SoloKeeps(
      schema: C.Schema, me: nat, r: Run, w: World, n: nat, p: (nat, (Run, World)) -> bool)
    requires p(0, (r, w))
    requires forall k: nat, now | k < n && p(k, now) :: p(k + 1, Step(schema, me, now.0, now.1, OK))
    ensures p(n, Solo(schema, me, r, w, Oks(n)))
  {
    if n > 0 {
      SoloKeeps(schema, me, r, w, n - 1, p);
      SoloNext(schema, me, r, w, Oks(n - 1), OK);
    }
  }

  lemma CommandsSolo(schema: C.Schema, me: nat, r: Run, w: World, n: nat) returns (r': Run, w': World)
    requires Runnable(r.plan) && n <= Size(r.plan) && Going(r, r.plan, r.base)
    ensures Solo(schema, me, Onward(r, 0), w, Oks(n)) == (Onward(r', n), w')
    ensures Going(r', r.plan, r.base) && w' == w.(overlay := w'.overlay)
  {
    var p := (k: nat, now: (Run, World)) => Partway(r.plan, r.base, w, k, now);
    forall k: nat, now | k < n && p(k, now)
      ensures p(k + 1, Step(schema, me, now.0, now.1, OK))
    {
      PartwayNext(schema, me, r.plan, r.base, w, k, now);
    }
    SoloKeeps(schema, me, Onward(r, 0), w, n, p);
    var now := Solo(schema, me, Onward(r, 0), w, Oks(n));
    w' := now.1;
    r' :| now.0 == Onward(r', n) && Going(r', r.plan, r.base);
  }

  lemma OkSolo(schema: C.Schema, me: nat, plan: Plan, w: World, begin: Answer, n: nat) returns (r: Run, w': World)
    requires w.lock.None? && (begin == OK || begin == RESUME) && Runnable(plan) && n <= Size(plan)
    ensures Solo(schema, me, Fresh(plan), w, Opening(begin, n)) == (Onward(r, n), w')
    ensures Going(r, plan, if begin.choice then w.Candidate() else w.active) && Underway(me, w, w')
  {
    var r1, w1 := BeginSolo(schema, me, plan, w, begin);
    r, w' := CommandsSolo(schema, me, r1, w1, n);
    SoloConcat(schema, me, Fresh(plan), w, Begins(begin), Oks(n));
  }

  lemma StepPlan(schema: C.Schema, me: nat, r: Run, w: World, a: Answer)
    ensures Step(schema, me, r, w, a).0.plan == r.plan
  {
  }

  // Where every call succeeds the candidate is what the run has made of its base.
  lemma {:induction false} SoloTracks(schema: C.Schema, me: nat, r: Run, w: World, answers: seq<Answer>)
    requires Tracks(schema, r, w) && r.plan.commit && forall a | a in answers :: a.fault.NoFault?
    ensures var (r', w') := Solo(schema, me, r, w, answers); Tracks(schema, r', w') && r'.plan == r.plan
  {
    if answers != [] {
      var n := |answers| - 1;
      assert answers[n] in answers;
      SoloTracks(schema, me, r, w, answers[..n]);
      var (r1, w1) := Solo(schema, me, r, w, answers[..n]);
      StepTracks(schema, me, r1, w1, answers[n]);
      StepPlan(schema, me, r1, w1, answers[n]);
    }
  }

  lemma OpeningTracks(schema: C.Schema, me: nat, plan: Plan, w: World, begin: Answer, n: nat)
    requires begin.fault.NoFault? && plan.commit
    ensures var (r', w') := Solo(schema, me, Fresh(plan), w, Opening(begin, n)); Tracks(schema, r', w')
  {
    OpeningFine(begin, n);
    SoloTracks(schema, me, Fresh(plan), w, Opening(begin, n));
  }

  lemma FailingSteps(schema: C.Schema, me: nat, r: Run, w: World, k: nat, wreck: C.Config)
    requires r.pc == Setting(k) && k < |r.plan.sets| && r.plan.sets[k].Some? && !r.canceled
    ensures Solo(schema, me, r, w, Failures(wreck)).1 == w.(overlay := Some(wreck), lock := None)
  {
    var bad := Bad(wreck);
    SoloNext(schema, me, r, w, [], bad);
    SoloNext(schema, me, r, w, [] + [bad], bad);
    SoloNext(schema, me, r, w, [] + [bad] + [bad], bad);
    SoloNext(schema, me, r, w, [] + [bad] + [bad] + [bad], OK);
    SetFails(schema, me, r, w, k, wreck);
    var (r1, w1) := Step(schema, me, r, w, bad);
    EndFails(schema, me, r1, w1, wreck);
  }

  lemma SetFails(schema: C.Schema, me: nat, r: Run, w: World, k: nat, wreck: C.Config)
    requires r.pc == Setting(k) && k < |r.plan.sets| && r.plan.sets[k].Some? && !r.canceled
    ensures var (r', w') := Step(schema, me, r, w, Bad(wreck));
      r'.pc == Discarding(true) && w' == w.(overlay := Some(wreck)) && !r'.canceled
  {
  }

  lemma EndFails(schema: C.Schema, me: nat, r: Run, w: World, wreck: C.Config)
    requires r.pc == Discarding(true) && w.overlay == Some(wreck) && !r.canceled
    ensures var (r2, w2) := Step(schema, me, r, w, Bad(wreck));
      var (r3, w3) := Step(schema, me, r2, w2, Bad(wreck));
      Step(schema, me, r3, w3, OK).1 == w.(lock := None)
  {
    var (r2, w2) := Step(schema, me, r, w, Bad(wreck));
    assert r2.pc == Closing && w2 == w;
    var (r3, w3) := Step(schema, me, r2, w2, Bad(wreck));
    assert r3.pc == Releasing && w3 == w;
  }

  // The run up to its last set.
  lemma BeforeLastSet(schema: C.Schema, me: nat, plan: Plan, w: World) returns (r: Run, w': World)
    requires w.lock.None? && plan.commit && Runnable(plan) && plan.sets != []
    ensures Solo(schema, me, Fresh(plan), w, Opening(OK, Size(plan) - 1)) == (r, w')
    ensures r.plan == plan && r.pc == Setting(|plan.sets| - 1) && !r.canceled && r.base == w.active
    ensures w' == w.(lock := Some(me), overlay := w'.overlay)
  {
    var n := Size(plan) - 1;
    var r0, w1 := OkSolo(schema, me, plan, w, OK, n);
    LastSet(r0);
    r, w' := Onward(r0, n), w1;
  }

  lemma TracksLastSet(schema: C.Schema, r: Run, w: World)
    requires Tracks(schema, r, w) && r.plan.sets != [] && r.pc == Setting(|r.plan.sets| - 1)
    ensures w.overlay == Some(WithSets(schema, r.plan, r.base, |r.plan.sets| - 1))
  {
  }

  // What the run has built by then.
  lemma Built(schema: C.Schema, me: nat, plan: Plan, w: World)
    requires w.lock.None? && plan.commit && Runnable(plan) && plan.sets != []
    ensures Solo(schema, me, Fresh(plan), w, Opening(OK, Size(plan) - 1)).1.overlay
      == Some(WithSets(schema, plan, w.active, |plan.sets| - 1))
  {
    var r, w1 := OkSolo(schema, me, plan, w, OK, Size(plan) - 1);
    OpeningTracks(schema, me, plan, w, OK, Size(plan) - 1);
    LastSet(r);
    TracksLastSet(schema, Onward(r, Size(plan) - 1), w1);
  }

  lemma ThenFails(schema: C.Schema, me: nat, r0: Run, w: World, head: seq<Answer>, wreck: C.Config)
    requires Fails(Solo(schema, me, r0, w, head), me, w) && w.lock.None?
    ensures Solo(schema, me, r0, w, head + Failures(wreck)).1 == w.(overlay := Some(wreck))
  {
    var (r, w1) := Solo(schema, me, r0, w, head);
    SoloConcat(schema, me, r0, w, head, Failures(wreck));
    FailingSteps(schema, me, r, w1, r.pc.k, wreck);
  }

  // The run holds its lock and is about to set a path.
  ghost predicate Fails(now: (Run, World), me: nat, w: World) {
    var (r, w') := now;
    && r.pc.Setting? && r.pc.k < |r.plan.sets| && r.plan.sets[r.pc.k].Some? && !r.canceled
    && w' == w.(lock := Some(me), overlay := w'.overlay)
  }

  lemma LastMayFail(schema: C.Schema, me: nat, plan: Plan, w: World)
    requires w.lock.None? && plan.commit && Runnable(plan) && plan.sets != []
    ensures Fails(Solo(schema, me, Fresh(plan), w, Opening(OK, Size(plan) - 1)), me, w)
  {
    var r, w1 := BeforeLastSet(schema, me, plan, w);
    LastRunnable(plan);
  }

  // The candidate is left to the next run of the process.
  lemma Abandons(schema: C.Schema, me: nat, plan: Plan, w: World, wreck: C.Config)
    requires w.lock.None? && plan.commit && Runnable(plan) && plan.sets != []
    ensures Solo(schema, me, Fresh(plan), w, Abandon(plan, wreck)).1 == w.(overlay := Some(wreck))
  {
    LastMayFail(schema, me, plan, w);
    ThenFails(schema, me, Fresh(plan), w, Opening(OK, Size(plan) - 1), wreck);
  }

  lemma LastRunnable(plan: Plan)
    requires Runnable(plan) && plan.sets != []
    ensures plan.sets[|plan.sets| - 1].Some?
  {
  }

  lemma LastSet(r: Run)
    requires r.plan.sets != []
    ensures Onward(r, Size(r.plan) - 1) == r.(pc := Setting(|r.plan.sets| - 1))
  {
  }

  lemma AllDone(r: Run)
    requires r.plan.commit
    ensures Onward(r, Size(r.plan)) == r.(pc := Committing)
  {
  }

  lemma Resumes(schema: C.Schema, me: nat, plan: Plan, w: World)
    requires w.lock.None? && plan.commit && Runnable(plan)
    ensures var w' := Solo(schema, me, Fresh(plan), w, Resume(plan)).1;
      w'.active == AfterPlan(schema, plan, w.Candidate()) && w'.commits == w.commits + [me]
  {
    var r, w1 := OkSolo(schema, me, plan, w, RESUME, Size(plan));
    OpeningTracks(schema, me, plan, w, RESUME, Size(plan));
    AllDone(r);
    SoloNext(schema, me, Fresh(plan), w, Opening(RESUME, Size(plan)), OK);
  }

  function Labels(first: Plan, second: Plan, wreck: C.Config): seq<Label>
    requires Size(first) > 0
  {
    LabelsOf(0, Abandon(first, wreck)) + LabelsOf(1, Resume(second))
  }

  // A run whose cleanups fail leaves its candidate to the next one, which commits it.
  lemma Takeover(schema: C.Schema, first: Plan, second: Plan, active: C.Config, boot: C.Config, wreck: C.Config)
    requires first.commit && Runnable(first) && first.sets != [] && second.commit && Runnable(second)
    ensures var w := Play(schema, Initial([first, second], active, boot), Labels(first, second, wreck)).world;
      w.commits == [1] && w.active == AfterPlan(schema, second, wreck)
  {
    var s0 := Initial([first, second], active, boot);
    var s1 := Play(schema, s0, LabelsOf(0, Abandon(first, wreck)));
    SoloPlay(schema, s0, 0, Abandon(first, wreck));
    Abandons(schema, 0, first, s0.world, wreck);
    assert s1.runs[1] == Fresh(second);
    SoloPlay(schema, s1, 1, Resume(second));
    Resumes(schema, 1, second, s1.world);
    PlayConcat(schema, s0, LabelsOf(0, Abandon(first, wreck)), LabelsOf(1, Resume(second)));
  }

  // ---- honesty ----

  lemma {:induction false} NothingReportedMissing(schema: C.Schema, s: System, labels: seq<Label>)
    requires forall i | 0 <= i < |labels| :: !labels[i].answer.fault.MissingNode?
    ensures AllHonest(schema, s, labels)
  {
    if labels != [] {
      NothingReportedMissing(schema, s, labels[..|labels| - 1]);
    }
  }

  lemma {:induction false} OksFine(n: nat)
    ensures forall a | a in Oks(n) :: a.fault.NoFault?
  {
    if n > 0 {
      OksFine(n - 1);
    }
  }

  lemma OpeningFine(begin: Answer, n: nat)
    requires begin.fault.NoFault?
    ensures forall a | a in Opening(begin, n) :: a.fault.NoFault?
  {
    OksFine(n);
  }

  lemma LabelsHonest(schema: C.Schema, s: System, first: Plan, second: Plan, wreck: C.Config)
    requires Size(first) > 0
    ensures AllHonest(schema, s, Labels(first, second, wreck))
  {
    OpeningFine(OK, Size(first) - 1);
    OpeningFine(RESUME, Size(second));
    NothingReportedMissing(schema, s, Labels(first, second, wreck));
  }

  // ---- two plans ----

  const PORT := RenderData.ServiceSection([], true, 22)
  const UPLINK := RenderData.Ethernet("eth0", "uplink")

  // The description of an ethernet and the port of the SSH service; the port alone.
  function FirstLines(): seq<Line> {
    [EthernetLine(UPLINK)] + SshLines(PORT)
  }

  function SecondLines(): seq<Line> {
    SshLines(PORT)
  }

  const DESCRIPTION: C.Path := ["interfaces", "ethernet", "eth0", "description", "uplink"]

  function PortPath(): C.Path {
    ["service", "ssh", "port", Decimal.Itoa(22)]
  }

  lemma LinesGood()
    ensures RoundTrip.AllGood(FirstLines()) && !RoundTrip.AnyDirty(FirstLines())
    ensures RoundTrip.AllGood(SecondLines()) && !RoundTrip.AnyDirty(SecondLines())
  {
    UplinkGood();
    Rendering.SshLinesGood(PORT);
    RoundTrip.GoodParts([EthernetLine(UPLINK)], SshLines(PORT));
  }

  lemma UplinkGood()
    ensures RoundTrip.AllGood([EthernetLine(UPLINK)]) && !RoundTrip.AnyDirty([EthernetLine(UPLINK)])
  {
    assert Rendering.ValidEthernet(UPLINK);
    CleanWord();
    Rendering.EthernetGood(UPLINK);
  }

  lemma CleanWord()
    ensures !RoundTrip.Dirty("uplink")
  {
  }

  lemma SetsOf()
    ensures PlanOf(SecondLines()).sets == [Some(PortPath())]
    ensures PlanOf(FirstLines()).sets == [Some(DESCRIPTION), Some(PortPath())]
  {
    assert Tokenizer.Texts(SshLines(PORT)[0])[1..] == PortPath();
    assert Tokenizer.Texts(EthernetLine(UPLINK))[1..] == DESCRIPTION;
  }

  lemma PathsOfBoth()
    ensures PathsOf(PlanOf(SecondLines()).deletes) == Reconcile.MANAGED
    ensures PathsOf(PlanOf(SecondLines()).sets) == [PortPath()]
    ensures PathsOf(PlanOf(FirstLines()).deletes) == Reconcile.MANAGED
  {
    LinesGood();
    SetsOf();
    PlanOfIsDefault(SecondLines());
    PlanOfIsDefault(FirstLines());
    Reconcile.DefaultPlanShape(PlanOf(SecondLines()));
    Reconcile.DefaultPlanShape(PlanOf(FirstLines()));
    OnePath(PortPath());
  }

  // What a plan that sets the port alone makes of a candidate with one foreign path.
  lemma SecondOn(schema: C.Schema, plan: Plan, p: C.Path)
    requires PathsOf(plan.deletes) == Reconcile.MANAGED && PathsOf(plan.sets) == [PortPath()]
    requires !Reconcile.Managed(p) && p != [] && p[0] != "service"
    ensures AfterPlan(schema, plan, {p}) == {p, PortPath()}
    ensures AfterPlan(schema, plan, {}) == {PortPath()}
  {
    DeleteManaged({p});
    DeleteManaged({});
    PortInPlace(schema, p);
    OneSet(schema, {p}, PortPath());
    OneSet(schema, {}, PortPath());
  }

  lemma DeleteManaged(c: C.Config)
    requires forall p | p in c :: !Reconcile.Managed(p)
    ensures C.DeleteAll(c, Reconcile.MANAGED) == c
  {
    C.DeletePhase(c, Reconcile.MANAGED);
  }

  lemma OnePath(p: C.Path)
    ensures PathsOf([Some(p)]) == [p]
  {
    assert [Some(p)][..0] == [];
  }

  lemma OneSet(schema: C.Schema, c: C.Config, p: C.Path)
    ensures C.SetAll(schema, c, [p]) == C.Set(schema, c, p)
  {
    assert [p][..0] == [];
  }

  lemma PortInPlace(schema: C.Schema, p: C.Path)
    requires p != [] && p[0] != "service"
    ensures !C.Displaces(schema, PortPath(), p)
  {
    assert PortPath()[..3][0] == "service";
    assert |p| >= 4 ==> p[..3][0] == p[0];
  }

  // The first plan's candidate when its last set fails: the description it has set.
  lemma FirstCandidate(schema: C.Schema, plan: Plan)
    requires PathsOf(plan.deletes) == Reconcile.MANAGED && |plan.sets| == 2 && plan.sets[0] == Some(DESCRIPTION)
    ensures WithSets(schema, plan, {}, 1) == {DESCRIPTION}
  {
    assert plan.deletes[..|plan.deletes|] == plan.deletes && plan.sets[..1] == [Some(DESCRIPTION)];
    OnePath(DESCRIPTION);
    DeleteManaged({});
    OneSet(schema, {}, DESCRIPTION);
  }

  lemma SecondWords(root: C.Path)
    requires root in Reconcile.MANAGED
    ensures |root| >= 2
    ensures root[1] == "bridge" || root[1] == "source" || root[1] == "dhcp-server" || root[1] == "dns"
      || root[1] == "ssh"
  {
  }

  lemma Unmanaged(p: C.Path)
    requires |p| >= 2 && (p[1] == "ethernet" || p[1] == "host-name")
    ensures !Reconcile.Managed(p)
  {
    forall root | root in Reconcile.MANAGED
      ensures !(root <= p)
    {
      SecondWords(root);
      NotPrefix(root, p);
    }
  }

  lemma NotPrefix(root: C.Path, p: C.Path)
    requires |root| >= 2 && |p| >= 2 && root[1] != p[1]
    ensures !(root <= p)
  {
  }

  lemma BothDefault()
    ensures var first, second := PlanOf(FirstLines()), PlanOf(SecondLines());
      && Reconcile.IsDefaultPlan(first) && Reconcile.IsDefaultPlan(second)
      && Runnable(first) && Runnable(second) && |first.sets| == 2 && first.sets[0] == Some(DESCRIPTION)
  {
    LinesGood();
    SetsOf();
    PlanOfIsDefault(FirstLines());
    PlanOfIsDefault(SecondLines());
  }

  // What comes of a foreign path in the candidate that is left behind.
  lemma TakenOver(schema: C.Schema, boot: C.Config, first: Plan, second: Plan, p: C.Path)
    requires first.commit && Runnable(first) && first.sets != [] && second.commit && Runnable(second)
    requires PathsOf(second.deletes) == Reconcile.MANAGED && PathsOf(second.sets) == [PortPath()]
    requires |p| >= 2 && p[0] != "service" && (p[1] == "ethernet" || p[1] == "host-name")
    ensures var s0, labels := Initial([first, second], {}, boot), Labels(first, second, {p});
      var w := Play(schema, s0, labels).world;
      && AllHonest(schema, s0, labels) && w.commits == [1] && w.active == {p, PortPath()}
    ensures Replay(schema, [first, second], {}, [1]) == {PortPath()}
  {
    Unmanaged(p);
    Takeover(schema, first, second, {}, boot, {p});
    LabelsHonest(schema, Initial([first, second], {}, boot), first, second, {p});
    SecondOn(schema, second, p);
    ReplayExtends(schema, [first, second], {}, [], 1);
  }

  // The first run's candidate when its last set fails.
  lemma FirstBuilds(schema: C.Schema, boot: C.Config, plan: Plan)
    requires plan.commit && Runnable(plan) && |plan.sets| == 2 && plan.sets[0] == Some(DESCRIPTION)
    requires PathsOf(plan.deletes) == Reconcile.MANAGED
    ensures Solo(schema, 0, Fresh(plan), World({}, None, boot, None, []), Opening(OK, Size(plan) - 1)).1.overlay
      == Some({DESCRIPTION})
  {
    Built(schema, 0, plan, World({}, None, boot, None, []));
    FirstCandidate(schema, plan);
  }

  // The two plans of a takeover, whose first run may leave anything in the candidate.
  lemma TwoPlans(schema: C.Schema, boot: C.Config, first: Plan, second: Plan, p: C.Path)
    requires first == PlanOf(FirstLines()) && second == PlanOf(SecondLines())
    requires |p| >= 2 && p[0] != "service" && (p[1] == "ethernet" || p[1] == "host-name")
    ensures Reconcile.IsDefaultPlan(first) && Reconcile.IsDefaultPlan(second)
    ensures first.commit && Runnable(first) && |first.sets| == 2 && first.sets[0] == Some(DESCRIPTION)
    ensures PathsOf(first.deletes) == Reconcile.MANAGED
    ensures var s0, labels := Initial([first, second], {}, boot), Labels(first, second, {p});
      var w := Play(schema, s0, labels).world;
      && AllHonest(schema, s0, labels) && w.commits == [1] && w.active == {p, PortPath()}
    ensures Replay(schema, [first, second], {}, [1]) == {PortPath()}
  {
    BothDefault();
    PathsOfBoth();
    TakenOver(schema, boot, first, second, p);
  }

  // Two plans of the default policy.  The first one sets a description, its next set
  // fails without touching the candidate, and discard and close fail too.  The second
  // one takes the session over and commits the description: only the second was
  // applied, but the configuration is not what it alone produces.
  lemma StaleCandidate(schema: C.Schema, boot: C.Config)
    ensures var first, second := PlanOf(FirstLines()), PlanOf(SecondLines());
      var s0, labels := Initial([first, second], {}, boot), Labels(first, second, {DESCRIPTION});
      var w := Play(schema, s0, labels).world;
      && Reconcile.IsDefaultPlan(first) && Reconcile.IsDefaultPlan(second) && AllHonest(schema, s0, labels)
      && Solo(schema, 0, Fresh(first), s0.world, Opening(OK, Size(first) - 1)).1.overlay == Some({DESCRIPTION})
      && w.commits == [1] && w.active == {DESCRIPTION, PortPath()}
      && Replay(schema, [first, second], {}, w.commits) == {PortPath()}
  {
    var first, second := PlanOf(FirstLines()), PlanOf(SecondLines());
    TwoPlans(schema, boot, first, second, DESCRIPTION);
    FirstBuilds(schema, boot, first);
  }

  const FOREIGN: C.Path := ["system", "host-name", "r"]

  // If failing calls leave an unmanaged path behind in the candidate, the next run
  // commits it.
  lemma FrameBroken(schema: C.Schema, boot: C.Config)
    ensures var first, second := PlanOf(FirstLines()), PlanOf(SecondLines());
      var s0, labels := Initial([first, second], {}, boot), Labels(first, second, {FOREIGN});
      && Reconcile.IsDefaultPlan(first) && Reconcile.IsDefaultPlan(second) && AllHonest(schema, s0, labels)
      && !Reconcile.SameOutside(Play(schema, s0, labels).world.active, {})
  {
    var first, second := PlanOf(FirstLines()), PlanOf(SecondLines());
    TwoPlans(schema, boot, first, second, FOREIGN);
    Unmanaged(FOREIGN);
    ForeignSeen({FOREIGN, PortPath()});
  }

  lemma ForeignSeen(c: C.Config)
    requires FOREIGN in c && !Reconcile.Managed(FOREIGN)
    ensures !Reconcile.SameOutside(c, {})
  {
    assert !Reconcile.EthernetDescription(FOREIGN);
  }
}
