// From a payload to the active configuration: rendering, planning and executing put
// together.
module EndToEnd {
  import opened Wrappers
  import C = Config
  import opened Transaction
  import opened Histories
  import Effects
  import Concurrency
  import Reconcile
  import Policy
  import Planner
  import RenderData
  import Templates
  import Rendering
  import Normalization
  import Parser
  import ReadBack
  import ReadAll

  // ---- executions in the system of interleaved runs ----

  function LabelAt(env: Env, h: History, k: nat): Concurrency.Label
    requires k < |h|
  {
    Concurrency.Label(env.me, Interpret(h[k].0.pc, env.script(k)))
  }

  // The labels of an execution's steps, each followed by what the others do meanwhile.
  function Labels(env: Env, h: History, others: seq<seq<Concurrency.Label>>): seq<Concurrency.Label>
    requires |others| == |h| - 1
    decreases |h|
  {
    if |h| == 1 then []
    else
      var n := |h| - 2;
      Labels(env, h[..n + 1], others[..n]) + [LabelAt(env, h, n)] + others[n]
  }

  // The others act only while the execution waits for the lock, and then the world is
  // what they leave.
  ghost predicate InSystem(env: Env, h: History, s: Concurrency.System, others: seq<seq<Concurrency.Label>>)
    requires |others| == |h| - 1
    decreases |h|
  {
    |h| > 1 ==>
      var n := |h| - 2;
      && InSystem(env, h[..n + 1], s, others[..n])
      && (forall l | l in others[n] :: l.who != env.me)
      && (if Waits(h[n].0, h[n].1, env.script(n)) then
            Concurrency.Play(env.schema, s, Labels(env, h, others)).world == h[n + 1].1
          else others[n] == [])
  }

  lemma {:induction false} OthersLeaveRun(
      schema: C.Schema, s: Concurrency.System, labels: seq<Concurrency.Label>, me: nat)
    requires me < |s.runs| && forall l | l in labels :: l.who != me
    ensures var s' := Concurrency.Play(schema, s, labels); |s'.runs| == |s.runs| && s'.runs[me] == s.runs[me]
  {
    if labels != [] {
      var n := |labels| - 1;
      OthersLeaveRun(schema, s, labels[..n], me);
      assert labels[n] in labels;
    }
  }

  // Any execution, from any state of the system, is a play of the system: what is
  // proved of interleaved runs holds of the code.
  lemma {:induction false} ExecutionPlays(
      env: Env, h: History, s: Concurrency.System, others: seq<seq<Concurrency.Label>>)
    requires IsHistory(env, h) && |others| == |h| - 1 && InSystem(env, h, s, others)
    requires env.me < |s.runs| && s.runs[env.me] == Fresh(env.plan) && s.world == env.first
    ensures var s' := Concurrency.Play(env.schema, s, Labels(env, h, others));
      |s'.runs| == |s.runs| && s'.runs[env.me] == Last(h).0 && s'.world == Last(h).1
    decreases |h|
  {
    if |h| > 1 {
      var n := |h| - 2;
      var front := Effects.Before(env, h);
      ExecutionPlays(env, front, s, others[..n]);
      var before := Labels(env, front, others[..n]);
      var own := LabelAt(env, h, n);
      OneStepPlays(env, front, Concurrency.Play(env.schema, s, before), own);
      assert (before + [own])[..|before|] == before;
      Concurrency.PlayConcat(env.schema, s, before + [own], others[n]);
      OthersLeaveRun(env.schema, Concurrency.Play(env.schema, s, before + [own]), others[n], env.me);
    }
  }

  lemma OneStepPlays(env: Env, front: History, s: Concurrency.System, l: Concurrency.Label)
    requires front != [] && env.me < |s.runs| && s.runs[env.me] == Last(front).0 && s.world == Last(front).1
    requires l == LabelAt(env, front, |front| - 1)
    ensures var s' := Concurrency.Move(env.schema, s, l);
      && |s'.runs| == |s.runs|
      && s'.runs[env.me] == After(env, |front| - 1, Last(front).0, Last(front).1).0
      && (!Waits(Last(front).0, Last(front).1, env.script(|front| - 1)) ==>
            s'.world == After(env, |front| - 1, Last(front).0, Last(front).1).1)
  {
  }

  // ---- one execution ----

  lemma OneDefaultPlan(text: Planner.TextPlan, input: Planner.Input, save: bool)
    requires Planner.IsPlanFor(text, input, Policy.DEFAULT_ROOTS, save)
    ensures Reconcile.IsDefaultPlan(Planner.Decode(text))
  {
  }

  // Whatever the execution meets and whatever fails: if it is applied, the managed
  // subtrees of the active configuration are what the plan's set commands alone produce;
  // if not, the active configuration is the one it found.
  lemma AppliedReconciles(env: Env, h: History)
    requires IsHistory(env, h) && Effects.HonestDevice(env, h) && Reconcile.IsDefaultPlan(env.plan)
    ensures Last(h).0.applied ==>
      forall q | Reconcile.Managed(q) ::
        q in Last(h).1.active <==> q in C.SetAll(env.schema, {}, Concurrency.PathsOf(env.plan.sets))
    ensures !Last(h).0.applied ==> Last(h).1.active == Effects.Found(h).active
  {
    Reconcile.DefaultPlanShape(env.plan);
    Effects.NothingUnlessApplied(env, h);
    Effects.AppliedEffect(env, h);
    Reconcile.DefaultPlanReconciles(env.schema, env.plan, Last(h).0.base);
  }

  // What is not managed is left as it was found if and only if the execution is not
  // applied or its session began with a candidate that agrees there.
  lemma UnmanagedExactly(env: Env, h: History)
    requires IsHistory(env, h) && Effects.HonestDevice(env, h) && Reconcile.IsDefaultPlan(env.plan)
    ensures Reconcile.SameOutside(Last(h).1.active, Effects.Found(h).active)
      <==> !Last(h).0.applied || Reconcile.SameOutside(Last(h).0.base, Effects.Found(h).active)
  {
    Reconcile.DefaultPlanShape(env.plan);
    Effects.NothingUnlessApplied(env, h);
    Effects.AppliedEffect(env, h);
    Reconcile.PlanKeepsOutside(env.schema, env.plan, Last(h).0.base);
  }

  // No cleanup need succeed: the candidate of an old session, if there is one, must agree
  // with the active configuration on what is not managed.
  lemma UnmanagedKept(env: Env, h: History)
    requires IsHistory(env, h) && Effects.HonestDevice(env, h) && Reconcile.IsDefaultPlan(env.plan)
    requires Effects.Found(h).overlay.None? || Reconcile.Confined(Effects.Found(h))
    ensures Reconcile.SameOutside(Last(h).1.active, Effects.Found(h).active)
  {
    Reconcile.DefaultPlanShape(env.plan);
    UnmanagedExactly(env, h);
    if Last(h).0.applied {
      Effects.AppliedBase(env, h);
    }
  }

  // Descriptions of ethernets that the plan does not name are kept: only the ones it
  // displaces go.
  lemma DescriptionsApplied(env: Env, h: History, q: C.Path)
    requires IsHistory(env, h) && Effects.HonestDevice(env, h) && Reconcile.IsDefaultPlan(env.plan)
    requires Reconcile.EthernetDescription(q)
    ensures Last(h).0.applied ==>
      var paths := Concurrency.PathsOf(env.plan.sets);
      q in Last(h).1.active
      <==> q in C.SetAll(env.schema, {}, paths) || (q in Last(h).0.base && !C.DisplacedBy(env.schema, paths, q))
  {
    Reconcile.DefaultPlanShape(env.plan);
    Effects.AppliedEffect(env, h);
    Reconcile.DescriptionsExactly(env.schema, env.plan, Last(h).0.base, q);
  }

  // The words of the rendered lines, without "set".
  function RenderedPaths(d: RenderData.Data): seq<C.Path> {
    Concurrency.PathsOf(Normalization.SetPaths(Templates.AllLines(d)))
  }

  // Rendered data that was applied is what the device is configured with: the managed
  // subtrees are exactly those that the rendered lines set, whatever was there before,
  // and every description is set by them or was there and is not displaced by them.  If
  // it was not applied, nothing has changed.
  lemma RenderedIsConfigured(
      d: RenderData.Data, root: Normalization.Root, ports: RenderData.PortMap,
      text: Planner.TextPlan, input: Planner.Input, save: bool, env: Env, h: History)
    requires Normalization.IsNormalized(d, root, ports) && Normalization.ValidPorts(ports)
    requires Templates.Rendered(d) == Some(input.desiredCommands)
    requires Planner.IsPlanFor(text, input, Policy.DEFAULT_ROOTS, save)
    requires env.plan == Planner.Decode(text) && IsHistory(env, h) && Effects.HonestDevice(env, h)
    ensures Last(h).0.applied ==>
      forall q | Reconcile.Managed(q) :: q in Last(h).1.active <==> q in C.SetAll(env.schema, {}, RenderedPaths(d))
    ensures Last(h).0.applied ==>
      forall q | Reconcile.EthernetDescription(q) ::
        q in Last(h).1.active <==>
          q in C.SetAll(env.schema, {}, RenderedPaths(d))
          || (q in Last(h).0.base && !C.DisplacedBy(env.schema, RenderedPaths(d), q))
    ensures !Last(h).0.applied ==> Last(h).1.active == Effects.Found(h).active
  {
    Normalization.NormalizedIsValid(d, root, ports);
    Normalization.RenderedIsRun(d, text, input, Policy.DEFAULT_ROOTS, save);
    OneDefaultPlan(text, input, save);
    AppliedReconciles(env, h);
    forall q | Reconcile.EthernetDescription(q) && Last(h).0.applied
      ensures q in Last(h).1.active <==>
        q in C.SetAll(env.schema, {}, RenderedPaths(d))
        || (q in Last(h).0.base && !C.DisplacedBy(env.schema, RenderedPaths(d), q))
    {
      DescriptionsApplied(env, h, q);
    }
  }

  lemma ValidFits(d: RenderData.Data)
    requires Rendering.ValidData(d)
    ensures ReadAll.AllFit(d.services)
  {
  }

  // The commands that the apply engine accepts of a rendered payload tell the device
  // exactly the payload's data.
  lemma RenderedReadBack(
      d: RenderData.Data, root: Normalization.Root, ports: RenderData.PortMap, text: string, commands: seq<string>)
    requires Normalization.IsNormalized(d, root, ports) && Normalization.ValidPorts(ports)
    requires Templates.Rendered(d) == Some(text) && Parser.Verdict(text, Ok(commands))
    ensures ReadBack.Take(ReadAll.TakeLine, ReadAll.NOTHING, ReadAll.CommandLines(commands)) == ReadAll.ViewOf(d)
  {
    Normalization.NormalizedIsValid(d, root, ports);
    ValidFits(d);
    Rendering.DataGood(d);
    Rendering.RenderedIsInput(d);
    Normalization.PlanIsPrinted(text, Templates.AllLines(d), commands);
    ReadAll.CommandsReadBack(d);
  }
}
