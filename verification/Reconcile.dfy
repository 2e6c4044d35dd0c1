// Managed-root reconciliation: what an applied plan of the default policy does to
// the device.
module Reconcile {
  import opened Wrappers
  import C = Config
  import Policy
  import Parser
  import Planner
  import Transaction
  import RunProperties
  import Concurrency

  const MANAGED: seq<C.Path> := [
    ["interfaces", "bridge"], ["nat", "source"], ["service", "dhcp-server"],
    ["service", "dns", "forwarding"], ["service", "ssh"]]

  predicate Managed(p: C.Path) {
    C.Under(MANAGED, p)
  }

  // interfaces ethernet <name> description ...
  predicate EthernetDescription(p: C.Path) {
    |p| >= 4 && p[0] == "interfaces" && p[1] == "ethernet" && p[3] == "description"
  }

  // Strictly below a managed root, or below an ethernet description.
  ghost predicate InPlace(p: C.Path) {
    || (exists r | r in MANAGED :: r <= p && |r| < |p|)
    || (|p| >= 5 && EthernetDescription(p))
  }

  // Every accepted set path lies in one of those places.
  lemma AcceptedInPlace(tokens: seq<string>)
    requires Parser.ValidSetPath(tokens)
    ensures InPlace(tokens[1..])
  {
    var p := tokens[1..];
    if tokens[1] == "interfaces" {
      if tokens[2] == "bridge" {
        assert MANAGED[0] in MANAGED && MANAGED[0] <= p;
      }
    } else if tokens[1] == "nat" {
      assert MANAGED[1] in MANAGED && MANAGED[1] <= p;
    } else {
      ServiceInPlace(tokens);
    }
  }

  lemma ServiceInPlace(tokens: seq<string>)
    requires |tokens| >= 4 && tokens[1] == "service" && Parser.ValidServicePath(tokens)
    ensures InPlace(tokens[1..])
  {
    var p := tokens[1..];
    if tokens[2] == "dhcp-server" {
      assert MANAGED[2] in MANAGED && MANAGED[2] <= p;
    } else if tokens[2] == "dns" {
      assert |tokens| == 6 && tokens[3] == "forwarding";
      assert MANAGED[3] in MANAGED && MANAGED[3] <= p;
    } else {
      assert MANAGED[4] in MANAGED && MANAGED[4] <= p;
    }
  }

  // A set path never displaces anything outside the place it is in.
  lemma DisplacementStays(schema: C.Schema, q: C.Path, p: C.Path)
    requires InPlace(q) && C.Displaces(schema, q, p)
    ensures Managed(p) || EthernetDescription(p)
  {
    var n := |q| - 1;
    assert forall i | 0 <= i < n :: p[i] == p[..n][i] && q[i] == q[..n][i];
    if r :| r in MANAGED && r <= q && |r| < |q| {
      assert r <= p;
    }
  }

  lemma PlaceIsArea(p: C.Path)
    requires InPlace(p)
    ensures Managed(p) || EthernetDescription(p)
  {
  }

  // ---- one plan ----

  ghost predicate AllInPlace(paths: seq<C.Path>) {
    forall q | q in paths :: InPlace(q)
  }

  // After the managed roots are deleted and the paths set: the managed subtrees are
  // what the set paths alone produce, and nothing outside the managed roots and
  // the ethernet descriptions has changed.
  lemma Reconciles(schema: C.Schema, c: C.Config, roots: seq<C.Path>, paths: seq<C.Path>)
    requires AllInPlace(paths)
    requires forall r :: r in roots <==> r in MANAGED
    ensures var c' := C.Replace(schema, c, roots, paths);
      && (forall p | Managed(p) :: p in c' <==> p in C.SetAll(schema, {}, paths))
      && (forall p | !Managed(p) && !EthernetDescription(p) :: p in c' <==> p in c)
  {
    C.ReplaceShape(schema, c, roots, paths);
    C.FreshIsSet(schema, paths);
    forall p
      ensures C.Under(roots, p) <==> Managed(p)
    {
    }
    forall p | !Managed(p) && !EthernetDescription(p)
      ensures p !in paths && !C.DisplacedBy(schema, paths, p)
    {
      if p in paths {
        PlaceIsArea(p);
      }
      if C.DisplacedBy(schema, paths, p) {
        var q :| q in paths && C.Displaces(schema, q, p);
        DisplacementStays(schema, q, p);
      }
    }
  }

  // ---- prepared plans of the default policy ----

  ghost predicate IsDefaultPlan(p: Transaction.Plan) {
    exists text: Planner.TextPlan, input, save ::
      Planner.IsPlanFor(text, input, Policy.DEFAULT_ROOTS, save) && p == Planner.Decode(text)
  }

  lemma DefaultRoots()
    ensures forall root | root in Policy.DEFAULT_ROOTS :: Policy.IsAllowedRoot(root)
    ensures |Policy.DEFAULT_ROOTS| == |MANAGED|
    ensures forall i | 0 <= i < |MANAGED| :: Policy.RootWords(Policy.DEFAULT_ROOTS[i]) == MANAGED[i]
  {
  }

  lemma {:induction false} PathsOfElements(commands: seq<Option<C.Path>>)
    ensures |Concurrency.PathsOf(commands)| == |commands|
    ensures forall i | 0 <= i < |commands| :: Concurrency.PathsOf(commands)[i] == Concurrency.PathOf(commands[i])
  {
    if commands != [] {
      PathsOfElements(commands[..|commands| - 1]);
    }
  }

  lemma DeletesAreManaged(deletes: seq<Option<C.Path>>)
    requires |deletes| == |Policy.DEFAULT_ROOTS|
    requires forall i | 0 <= i < |deletes| :: deletes[i] == Some(Policy.RootWords(Policy.DEFAULT_ROOTS[i]))
    ensures Concurrency.PathsOf(deletes) == MANAGED
  {
    DefaultRoots();
    PathsOfElements(deletes);
  }

  lemma SetsAreInPlace(commands: seq<string>, sets: seq<Option<C.Path>>)
    requires |sets| == |commands| && forall i | 0 <= i < |sets| :: Planner.ValidatedPath(commands[i], sets[i])
    ensures AllInPlace(Concurrency.PathsOf(sets))
  {
    PathsOfElements(sets);
    forall i | 0 <= i < |sets|
      ensures InPlace(Concurrency.PathOf(sets[i]))
    {
      var tokens :| Parser.ValidSetPath(tokens) && Planner.Tokenizes(commands[i], tokens)
        && sets[i] == Some(tokens[1..]);
      AcceptedInPlace(tokens);
    }
  }

  lemma DefaultPlanShape(p: Transaction.Plan)
    requires IsDefaultPlan(p)
    ensures p.commit
    ensures Concurrency.PathsOf(p.deletes) == MANAGED
    ensures AllInPlace(Concurrency.PathsOf(p.sets))
  {
    var text: Planner.TextPlan, input, save :|
      Planner.IsPlanFor(text, input, Policy.DEFAULT_ROOTS, save) && p == Planner.Decode(text);
    DefaultRoots();
    Planner.GuardsNeverFire(text, input, Policy.DEFAULT_ROOTS, save);
    DeletesAreManaged(p.deletes);
    SetsAreInPlace(text.sets, p.sets);
  }

  // What an applied default plan does, whatever the configuration before it.
  lemma DefaultPlanReconciles(schema: C.Schema, p: Transaction.Plan, c: C.Config)
    requires IsDefaultPlan(p)
    ensures var c' := Concurrency.AfterPlan(schema, p, c);
      && (forall q | Managed(q) :: q in c' <==> q in C.SetAll(schema, {}, Concurrency.PathsOf(p.sets)))
      && (forall q | !Managed(q) && !EthernetDescription(q) :: q in c' <==> q in c)
      && Concurrency.AfterPlan(schema, p, c') == c'
  {
    DefaultPlanShape(p);
    Reconciles(schema, c, MANAGED, Concurrency.PathsOf(p.sets));
    C.ReplaceIdempotent(schema, c, MANAGED, Concurrency.PathsOf(p.sets));
  }

  // ---- ethernet descriptions ----

  lemma DescriptionUnmanaged(q: C.Path)
    requires EthernetDescription(q)
    ensures !Managed(q)
  {
    forall root | root in MANAGED
      ensures !(root <= q)
    {
      assert root[0] != "interfaces" || root[1] == "bridge";
    }
  }

  // They are neither replaced nor left alone: what the sets produce is added, and an
  // old one stays exactly if no set displaces it.
  lemma DescriptionsExactly(schema: C.Schema, p: Transaction.Plan, c: C.Config, q: C.Path)
    requires IsDefaultPlan(p) && EthernetDescription(q)
    ensures var paths := Concurrency.PathsOf(p.sets);
      q in Concurrency.AfterPlan(schema, p, c)
      <==> q in C.SetAll(schema, {}, paths) || (q in c && !C.DisplacedBy(schema, paths, q))
  {
    DefaultPlanShape(p);
    DescriptionUnmanaged(q);
    C.ReplaceShape(schema, c, MANAGED, Concurrency.PathsOf(p.sets));
  }

  // Whatever the schema, the description of an interface that no set names stays.
  lemma DescriptionForgotten(schema: C.Schema, p: Transaction.Plan, c: C.Config, q: C.Path)
    requires IsDefaultPlan(p) && EthernetDescription(q) && q in c
    requires forall s | s in Concurrency.PathsOf(p.sets) :: !(q[..4] <= s)
    ensures q in Concurrency.AfterPlan(schema, p, c)
  {
    DefaultPlanShape(p);
    var paths := Concurrency.PathsOf(p.sets);
    forall s | s in paths
      ensures !C.Displaces(schema, s, q)
    {
      ForeignStays(schema, s, q);
    }
    DescriptionsExactly(schema, p, c, q);
  }

  lemma ForeignStays(schema: C.Schema, s: C.Path, q: C.Path)
    requires InPlace(s) && EthernetDescription(q) && !(q[..4] <= s)
    ensures !C.Displaces(schema, s, q)
  {
    DescriptionUnmanaged(q);
    if C.Displaces(schema, s, q) {
      SharedFront(s, q, 4);
      forall root | root in MANAGED && root <= s && |root| < |s|
        ensures root <= q
      {
        SharedFront(s, q, |root|);
      }
    }
  }

  lemma SharedFront(s: C.Path, q: C.Path, n: nat)
    requires s != [] && |q| >= |s| && s[..|s| - 1] == q[..|s| - 1]
    ensures n < |s| ==> s[..n] == q[..n]
  {
    if n < |s| {
      assert s[..n] == s[..|s| - 1][..n] == q[..|s| - 1][..n] == q[..n];
    }
  }

  // ---- all executions ----

  // If any run was applied, the latest commit is that of an applied run, and its set
  // commands alone decide the managed subtrees of the active configuration.
  ghost predicate LatestReconciled(schema: C.Schema, s: Concurrency.System) {
    var order := s.world.commits;
    (exists i | 0 <= i < |s.runs| :: s.runs[i].applied) ==>
      && order != [] && order[|order| - 1] < |s.runs|
      && var r := s.runs[order[|order| - 1]];
         && r.applied
         && forall q | Managed(q) ::
              q in s.world.active <==> q in C.SetAll(schema, {}, Concurrency.PathsOf(r.plan.sets))
  }

  lemma ManagedAfter(schema: C.Schema, p: Transaction.Plan, c: C.Config)
    requires IsDefaultPlan(p)
    ensures var c' := Concurrency.AfterPlan(schema, p, c);
      forall q | Managed(q) :: q in c' <==> q in C.SetAll(schema, {}, Concurrency.PathsOf(p.sets))
  {
    DefaultPlanReconciles(schema, p, c);
  }

  lemma LatestManaged(schema: C.Schema, s: Concurrency.System, active: C.Config)
    requires forall i | 0 <= i < |s.runs| :: IsDefaultPlan(s.runs[i].plan)
    requires forall i: nat :: i in s.world.commits <==> i < |s.runs| && s.runs[i].applied
    requires s.world.active == Concurrency.LastOutcome(schema, s.runs, active, s.world.commits)
    ensures LatestReconciled(schema, s)
  {
    LastOfOrder(s.runs, s.world.commits);
    LatestOutcome(schema, s.runs, active, s.world.commits);
  }

  // The last of the applied runs, if there is one.
  lemma LastOfOrder(runs: seq<Transaction.Run>, order: seq<nat>)
    requires forall i: nat :: i in order <==> i < |runs| && runs[i].applied
    ensures order == [] ==> forall i | 0 <= i < |runs| :: !runs[i].applied
    ensures order != [] ==> order[|order| - 1] < |runs| && runs[order[|order| - 1]].applied
  {
    if order != [] {
      assert order[|order| - 1] in order;
    }
  }

  lemma LatestOutcome(schema: C.Schema, runs: seq<Transaction.Run>, active: C.Config, order: seq<nat>)
    requires order != [] ==> order[|order| - 1] < |runs| && IsDefaultPlan(runs[order[|order| - 1]].plan)
    ensures order != [] ==>
      var c := Concurrency.LastOutcome(schema, runs, active, order);
      var sets := Concurrency.PathsOf(runs[order[|order| - 1]].plan.sets);
      forall q | Managed(q) :: q in c <==> q in C.SetAll(schema, {}, sets)
  {
    if order != [] {
      var last := runs[order[|order| - 1]];
      ManagedAfter(schema, last.plan, last.base);
    }
  }

  // Whatever runs of default plans are interleaved and whatever fails, cleanups
  // included: once a run has been applied, the managed subtrees are exactly what the
  // set commands of the latest applied run produce.
  lemma ManagedAlwaysReconciled(
      schema: C.Schema, plans: seq<Transaction.Plan>, active: C.Config, boot: C.Config, labels: seq<Concurrency.Label>)
    requires forall i | 0 <= i < |plans| :: IsDefaultPlan(plans[i])
    requires Concurrency.AllHonest(schema, Concurrency.Initial(plans, active, boot), labels)
    ensures LatestReconciled(schema, Concurrency.Play(schema, Concurrency.Initial(plans, active, boot), labels))
  {
    forall i | 0 <= i < |plans|
      ensures plans[i].commit
    {
      DefaultPlanShape(plans[i]);
    }
    Concurrency.LastAppliedWins(schema, plans, active, boot, labels);
    Concurrency.PlayPlans(schema, plans, active, boot, labels);
    LatestManaged(schema, Concurrency.Play(schema, Concurrency.Initial(plans, active, boot), labels), active);
  }

  // If moreover no session is left behind with changes, nothing outside the managed
  // roots and the ethernet descriptions ever changes.
  lemma UnmanagedNeverTouched(
      schema: C.Schema, plans: seq<Transaction.Plan>, active: C.Config, boot: C.Config, labels: seq<Concurrency.Label>)
    requires forall i | 0 <= i < |plans| :: IsDefaultPlan(plans[i])
    requires Concurrency.AllHonest(schema, Concurrency.Initial(plans, active, boot), labels)
    requires Concurrency.AllCleanUp(schema, Concurrency.Initial(plans, active, boot), labels)
    ensures var s := Concurrency.Play(schema, Concurrency.Initial(plans, active, boot), labels);
      forall q | !Managed(q) && !EthernetDescription(q) :: q in s.world.active <==> q in active
  {
    forall i | 0 <= i < |plans|
      ensures plans[i].commit
    {
      DefaultPlanShape(plans[i]);
    }
    Concurrency.Serializable(schema, plans, active, boot, labels);
    var s := Concurrency.Play(schema, Concurrency.Initial(plans, active, boot), labels);
    ReplayUnmanaged(schema, plans, active, s.world.commits);
  }

  lemma {:induction false} ReplayUnmanaged(schema: C.Schema, plans: seq<Transaction.Plan>, c: C.Config, order: seq<nat>)
    requires forall i | 0 <= i < |plans| :: IsDefaultPlan(plans[i])
    ensures forall q | !Managed(q) && !EthernetDescription(q) ::
      q in Concurrency.Replay(schema, plans, c, order) <==> q in c
  {
    if order != [] {
      var n := |order| - 1;
      ReplayUnmanaged(schema, plans, c, order[..n]);
      if order[n] < |plans| {
        DefaultPlanReconciles(schema, plans[order[n]], Concurrency.Replay(schema, plans, c, order[..n]));
      }
    }
  }

  // ---- the frame, exactly ----

  // Equal outside the managed roots and the ethernet descriptions.
  ghost predicate SameOutside(a: C.Config, b: C.Config) {
    forall q | !Managed(q) && !EthernetDescription(q) :: q in a <==> q in b
  }

  // At every point so far the unmanaged paths were those of the first configuration.
  ghost predicate AlwaysFramed(schema: C.Schema, s: Concurrency.System, labels: seq<Concurrency.Label>) {
    labels != [] ==>
      && AlwaysFramed(schema, s, labels[..|labels| - 1])
      && SameOutside(Concurrency.Play(schema, s, labels).world.active, s.world.active)
  }

  // At every commit so far the candidate that the session began with and the active
  // configuration agreed on the unmanaged paths.
  ghost predicate CommitsAgreeOutside(schema: C.Schema, s: Concurrency.System, labels: seq<Concurrency.Label>) {
    labels != [] ==>
      var front, l := labels[..|labels| - 1], labels[|labels| - 1];
      var before := Concurrency.Play(schema, s, front);
      && CommitsAgreeOutside(schema, s, front)
      && (Concurrency.Play(schema, s, labels).world.commits != before.world.commits && l.who < |before.runs| ==>
            SameOutside(before.runs[l.who].base, before.world.active))
  }

  lemma PlanKeepsOutside(schema: C.Schema, p: Transaction.Plan, c: C.Config)
    requires IsDefaultPlan(p)
    ensures SameOutside(Concurrency.AfterPlan(schema, p, c), c)
  {
    DefaultPlanReconciles(schema, p, c);
  }

  lemma StepOutside(schema: C.Schema, me: nat, r: Transaction.Run, w: Transaction.World, a: Transaction.Answer)
    requires IsDefaultPlan(r.plan) && RunProperties.Kept(r) && Concurrency.Tracks(schema, r, w)
    ensures var w' := Transaction.Step(schema, me, r, w, a).1;
      SameOutside(w'.active, w.active) <==> w'.commits == w.commits || SameOutside(r.base, w.active)
  {
    DefaultPlanCommits(r.plan);
    Concurrency.StepLast(schema, me, r, w, a);
    PlanKeepsOutside(schema, r.plan, r.base);
    SameVia(Concurrency.AfterPlan(schema, r.plan, r.base), r.base, w.active);
    SameVia(w.active, w.active, w.active);
  }

  lemma DefaultPlanCommits(p: Transaction.Plan)
    requires IsDefaultPlan(p)
    ensures p.commit
  {
    DefaultPlanShape(p);
  }

  lemma SameVia(a: C.Config, b: C.Config, c: C.Config)
    requires SameOutside(a, b)
    ensures SameOutside(a, c) <==> SameOutside(b, c)
    ensures SameOutside(a, a)
  {
  }

  // With no assumption on cleanups: unmanaged paths are never touched if and only if at
  // every commit the candidate the session began with agreed on them.
  lemma {:induction false} FrameExactly(
      schema: C.Schema, plans: seq<Transaction.Plan>, active: C.Config, boot: C.Config, labels: seq<Concurrency.Label>)
    requires forall i | 0 <= i < |plans| :: IsDefaultPlan(plans[i])
    requires Concurrency.AllHonest(schema, Concurrency.Initial(plans, active, boot), labels)
    ensures AlwaysFramed(schema, Concurrency.Initial(plans, active, boot), labels)
      <==> CommitsAgreeOutside(schema, Concurrency.Initial(plans, active, boot), labels)
  {
    if labels != [] {
      var s0 := Concurrency.Initial(plans, active, boot);
      var front, l := labels[..|labels| - 1], labels[|labels| - 1];
      var s := Concurrency.Play(schema, s0, front);
      FrameExactly(schema, plans, active, boot, front);
      if AlwaysFramed(schema, s0, front) {
        NowFramed(schema, s0, front);
        MoveOutside(schema, plans, active, boot, front, l);
      }
    }
  }

  lemma NowFramed(schema: C.Schema, s: Concurrency.System, labels: seq<Concurrency.Label>)
    requires AlwaysFramed(schema, s, labels)
    ensures SameOutside(Concurrency.Play(schema, s, labels).world.active, s.world.active)
  {
  }

  lemma MoveOutside(
      schema: C.Schema, plans: seq<Transaction.Plan>, active: C.Config, boot: C.Config, labels: seq<Concurrency.Label>,
      l: Concurrency.Label)
    requires forall i | 0 <= i < |plans| :: IsDefaultPlan(plans[i])
    requires Concurrency.AllHonest(schema, Concurrency.Initial(plans, active, boot), labels)
    ensures var s := Concurrency.Play(schema, Concurrency.Initial(plans, active, boot), labels);
      var s' := Concurrency.Move(schema, s, l);
      && (SameOutside(s'.world.active, s.world.active) <==>
            s'.world.commits == s.world.commits
            || (l.who < |s.runs| && SameOutside(s.runs[l.who].base, s.world.active)))
  {
    forall i | 0 <= i < |plans|
      ensures plans[i].commit
    {
      DefaultPlanShape(plans[i]);
    }
    var s := Concurrency.Play(schema, Concurrency.Initial(plans, active, boot), labels);
    if l.who < |s.runs| {
      Concurrency.PlayCommitLog(schema, plans, active, boot, labels);
      Concurrency.PlayPlans(schema, plans, active, boot, labels);
      assert RunProperties.Kept(s.runs[l.who]) && Concurrency.Tracks(schema, s.runs[l.who], s.world);
      StepOutside(schema, l.who, s.runs[l.who], s.world, l.answer);
    }
  }

  // ---- devices that fail tamely ----

  // A failing delete, set or discard leaves the unmanaged part of the candidate alone.
  ghost predicate Tame(r: Transaction.Run, w: Transaction.World, a: Transaction.Answer) {
    && (r.pc.Deleting? && !a.fault.NoFault? && !a.fault.MissingNode? ==> SameOutside(a.wreck, w.Candidate()))
    && ((r.pc.Setting? || r.pc.Discarding?) && !a.fault.NoFault? ==> SameOutside(a.wreck, w.Candidate()))
  }

  ghost predicate AllTame(schema: C.Schema, s: Concurrency.System, labels: seq<Concurrency.Label>) {
    labels != [] ==>
      var front, l := labels[..|labels| - 1], labels[|labels| - 1];
      var before := Concurrency.Play(schema, s, front);
      && AllTame(schema, s, front)
      && (l.who < |before.runs| ==> Tame(before.runs[l.who], before.world, l.answer))
  }

  // The candidate differs from the active configuration in managed places only.
  ghost predicate Confined(w: Transaction.World) {
    SameOutside(w.Candidate(), w.active)
  }

  lemma DeleteStaysInside(c: C.Config, root: C.Path)
    requires root in MANAGED
    ensures SameOutside(C.Delete(c, root), c)
  {
    forall q | !Managed(q) && !EthernetDescription(q)
      ensures q in C.Delete(c, root) <==> q in c
    {
      assert !(root <= q);
    }
  }

  lemma SetStaysInside(schema: C.Schema, c: C.Config, path: C.Path)
    requires InPlace(path)
    ensures SameOutside(C.Set(schema, c, path), c)
  {
    forall q | !Managed(q) && !EthernetDescription(q)
      ensures q in C.Set(schema, c, path) <==> q in c
    {
      if C.Displaces(schema, path, q) {
        DisplacementStays(schema, path, q);
      }
      if q == path {
        PlaceIsArea(path);
      }
    }
  }

  lemma DeleteConfined(r: Transaction.Run, k: nat, w: Transaction.World, a: Transaction.Answer)
    requires IsDefaultPlan(r.plan) && r.pc == Transaction.Deleting(k) && k < |r.plan.deletes|
    requires Confined(w) && Tame(r, w, a)
    ensures var w' := Transaction.DeleteReply(w, r.plan.deletes[k], a).world; Confined(w') && w'.active == w.active
  {
    DefaultPlanShape(r.plan);
    PathsOfElements(r.plan.deletes);
    if r.plan.deletes[k].Some? {
      assert r.plan.deletes[k].value == MANAGED[k];
      DeleteStaysInside(w.Candidate(), r.plan.deletes[k].value);
    }
  }

  lemma SetConfined(schema: C.Schema, r: Transaction.Run, k: nat, w: Transaction.World, a: Transaction.Answer)
    requires IsDefaultPlan(r.plan) && r.pc == Transaction.Setting(k) && k < |r.plan.sets|
    requires Confined(w) && Tame(r, w, a)
    ensures var w' := Transaction.SetReply(schema, w, r.plan.sets[k], a).world; Confined(w') && w'.active == w.active
  {
    DefaultPlanShape(r.plan);
    PathsOfElements(r.plan.sets);
    if r.plan.sets[k].Some? {
      assert Concurrency.PathsOf(r.plan.sets)[k] == r.plan.sets[k].value;
      SetStaysInside(schema, w.Candidate(), r.plan.sets[k].value);
    }
  }

  // The other steps put the candidate or the active configuration in each other's place.
  lemma OtherConfined(schema: C.Schema, me: nat, r: Transaction.Run, w: Transaction.World, a: Transaction.Answer)
    requires !(r.pc.Deleting? && r.pc.k < |r.plan.deletes|) && !(r.pc.Setting? && r.pc.k < |r.plan.sets|)
    requires r.pc.Discarding? && !a.fault.NoFault? ==> SameOutside(a.wreck, w.Candidate())
    ensures var w' := Transaction.Perform(schema, me, r, w, a).world;
      && (w'.active == w.active || w'.active == w.Candidate())
      && (w'.Candidate() == w.Candidate() || w'.Candidate() == w.active || SameOutside(w'.Candidate(), w.Candidate()))
  {
    if r.pc.Discarding? {
      DiscardConfined(schema, me, r, w, a);
    }
  }

  lemma DiscardConfined(schema: C.Schema, me: nat, r: Transaction.Run, w: Transaction.World, a: Transaction.Answer)
    requires r.pc.Discarding? && (!a.fault.NoFault? ==> SameOutside(a.wreck, w.Candidate()))
    ensures var w' := Transaction.Perform(schema, me, r, w, a).world;
      && w'.active == w.active
      && w'.Candidate() == (if a.fault.NoFault? then w.active else a.wreck)
  {
  }

  lemma DeletePerformed(schema: C.Schema, me: nat, r: Transaction.Run, w: Transaction.World, a: Transaction.Answer)
    requires r.pc.Deleting? && r.pc.k < |r.plan.deletes|
    ensures Transaction.Perform(schema, me, r, w, a) == Transaction.DeleteReply(w, r.plan.deletes[r.pc.k], a)
  {
  }

  lemma SetPerformed(schema: C.Schema, me: nat, r: Transaction.Run, w: Transaction.World, a: Transaction.Answer)
    requires r.pc.Setting? && r.pc.k < |r.plan.sets|
    ensures Transaction.Perform(schema, me, r, w, a) == Transaction.SetReply(schema, w, r.plan.sets[r.pc.k], a)
  {
  }

  lemma OutsideReflexive(c: C.Config)
    ensures SameOutside(c, c)
  {
  }

  lemma PerformConfined(schema: C.Schema, me: nat, r: Transaction.Run, w: Transaction.World, a: Transaction.Answer)
    requires IsDefaultPlan(r.plan) && Confined(w) && Tame(r, w, a)
    ensures var w' := Transaction.Perform(schema, me, r, w, a).world; Confined(w') && SameOutside(w'.active, w.active)
  {
    OutsideReflexive(w.active);
    if r.pc.Deleting? && r.pc.k < |r.plan.deletes| {
      DeletePerformed(schema, me, r, w, a);
      DeleteConfined(r, r.pc.k, w, a);
    } else if r.pc.Setting? && r.pc.k < |r.plan.sets| {
      SetPerformed(schema, me, r, w, a);
      SetConfined(schema, r, r.pc.k, w, a);
    } else {
      OtherConfined(schema, me, r, w, a);
      PutInPlace(w, Transaction.Perform(schema, me, r, w, a).world);
    }
  }

  lemma PutInPlace(w: Transaction.World, w': Transaction.World)
    requires Confined(w) && (w'.active == w.active || w'.active == w.Candidate())
    requires w'.Candidate() == w.Candidate() || w'.Candidate() == w.active || SameOutside(w'.Candidate(), w.Candidate())
    ensures Confined(w') && SameOutside(w'.active, w.active)
  {
  }

  lemma StepWorld(schema: C.Schema, me: nat, r: Transaction.Run, w: Transaction.World, a: Transaction.Answer)
    ensures var now, w' := r.(canceled := r.canceled || a.cancel), Transaction.Step(schema, me, r, w, a).1;
      w' == w || w' == Transaction.Perform(schema, me, now, w, a).world
  {
  }

  lemma StepConfined(schema: C.Schema, me: nat, r: Transaction.Run, w: Transaction.World, a: Transaction.Answer)
    requires IsDefaultPlan(r.plan) && Confined(w) && Tame(r, w, a)
    ensures var w' := Transaction.Step(schema, me, r, w, a).1; Confined(w') && SameOutside(w'.active, w.active)
  {
    StepWorld(schema, me, r, w, a);
    PerformConfined(schema, me, r.(canceled := r.canceled || a.cancel), w, a);
  }

  // Then nothing unmanaged is ever touched, whatever cleanups fail.
  lemma {:induction false} TameDevicesFrame(
      schema: C.Schema, plans: seq<Transaction.Plan>, active: C.Config, boot: C.Config, labels: seq<Concurrency.Label>)
    requires forall i | 0 <= i < |plans| :: IsDefaultPlan(plans[i])
    requires AllTame(schema, Concurrency.Initial(plans, active, boot), labels)
    ensures var s := Concurrency.Play(schema, Concurrency.Initial(plans, active, boot), labels);
      Confined(s.world) && SameOutside(s.world.active, active)
    ensures AlwaysFramed(schema, Concurrency.Initial(plans, active, boot), labels)
  {
    if labels != [] {
      var front, l := labels[..|labels| - 1], labels[|labels| - 1];
      TameDevicesFrame(schema, plans, active, boot, front);
      Concurrency.PlayPlans(schema, plans, active, boot, front);
      var s := Concurrency.Play(schema, Concurrency.Initial(plans, active, boot), front);
      if l.who < |s.runs| {
        StepConfined(schema, l.who, s.runs[l.who], s.world, l.answer);
      }
    }
  }
}
