/**
 Concurrent start-up. Every enabled plugin waits for its injected services, then applies
 (providing services one at a time), then has started or failed; the steps of different
 plugins interleave freely. Each plugin's outcome is fixed: which services its `apply`
 provides and whether it returns or throws. Boot timeouts are not steps: what they would
 hit is the set of plugins still waiting when no step is left.
 */
module PluginStart {
  import opened PluginRegistry
  import opened Sums

  datatype Spec = Spec(declares: seq<Name>, inject: seq<Name>, enabled: bool, ok: bool, gives: set<Name>)

  type Config = map<Name, Spec>

  datatype Phase = Fresh | Waiting | Applying(left: set<Name>) | Up | Crashed | Refused

  datatype Boot = Boot(reg: Registry, phase: map<Name, Phase>)

  datatype Step = Begin(e: Name) | Proceed(e: Name) | Refuse(e: Name) | Give(e: Name, name: Name) | Finish(e: Name)

  ghost predicate CanStep(cfg: Config, b: Boot, step: Step) {
    && step.e in b.phase && step.e in cfg
    && match step
       case Begin(e) => b.phase[e] == Fresh
       case Proceed(e) =>
         b.phase[e] == Waiting && forall d :: d in cfg[e].inject ==> StatusOf(b.reg, Wait(e, d)) == Done(Resolved)
       case Refuse(e) =>
         b.phase[e] == Waiting && exists d :: d in cfg[e].inject && StatusOf(b.reg, Wait(e, d)) == Done(Rejected)
       case Give(e, name) => b.phase[e].Applying? && name in b.phase[e].left
       case Finish(e) => b.phase[e] == Applying({})
  }

  ghost function Do(cfg: Config, b: Boot, step: Step): Boot
    requires CanStep(cfg, b, step)
  {
    var e, spec := step.e, cfg[step.e];
    match step
    case Begin(_) => Boot(WaitForAll(b.reg, e, spec.inject), b.phase[e := Waiting])
    case Proceed(_) => Boot(b.reg, b.phase[e := Applying(spec.gives)])
    case Refuse(_) => Boot(MarkAll(b.reg, spec.declares), b.phase[e := Refused])
    case Give(_, name) => Boot(Provide(b.reg, name), b.phase[e := Applying(b.phase[e].left - {name})])
    case Finish(_) =>
      if spec.ok then Boot(b.reg, b.phase[e := Up])
      else Boot(MarkAll(b.reg, spec.declares), b.phase[e := Crashed])
  }

  ghost predicate IsRun(cfg: Config, b: Boot, steps: seq<Step>)
    decreases |steps|
  {
    steps != [] ==> CanStep(cfg, b, steps[0]) && IsRun(cfg, Do(cfg, b, steps[0]), steps[1..])
  }

  ghost function End(cfg: Config, b: Boot, steps: seq<Step>): Boot
    requires IsRun(cfg, b, steps)
    decreases |steps|
  {
    if steps == [] then b else End(cfg, Do(cfg, b, steps[0]), steps[1..])
  }

  ghost predicate Terminal(cfg: Config, b: Boot) {
    forall step :: !CanStep(cfg, b, step)
  }

  /** A run after which no step is left. */
  ghost predicate Complete(cfg: Config, b: Boot, steps: seq<Step>) {
    IsRun(cfg, b, steps) && Terminal(cfg, End(cfg, b, steps))
  }

  /**
   No plugin declares a service that another one provides. Services may well be provided that
   nobody declares, and by several plugins.
   */
  ghost predicate Unmixed(cfg: Config, b: Boot) {
    forall e, f, n :: (&& e in b.phase && f in b.phase && e in cfg && f in cfg
                       && n in cfg[e].gives && n in cfg[f].declares) ==> e == f
  }

  /** A state before any plugin runs. */
  ghost predicate Sane(cfg: Config, b: Boot) {
    && NoLostWait(b.reg) && b.reg.waiters == {}
    && (forall e :: e in b.phase <==> e in cfg && cfg[e].enabled)
    && (forall e :: e in b.phase ==> b.phase[e] == Fresh)
    && Unmixed(cfg, b)
  }

  predicate Ran(p: Phase) {
    p.Applying? || p == Up || p == Crashed
  }

  predicate Fallen(p: Phase) {
    p == Crashed || p == Refused
  }

  /** `n` has been provided by `e` in this start. */
  ghost predicate Given(cfg: Config, b: Boot, e: Name, n: Name) {
    e in b.phase && e in cfg && n in cfg[e].gives && Ran(b.phase[e]) && (b.phase[e].Applying? ==> n !in b.phase[e].left)
  }

  ghost predicate GivenBySome(cfg: Config, b: Boot, n: Name) {
    exists e :: Given(cfg, b, e, n)
  }

  ghost predicate DeclaredByFallen(cfg: Config, b: Boot, n: Name) {
    exists e :: e in b.phase && e in cfg && Fallen(b.phase[e]) && n in cfg[e].declares
  }

  // ---- what every reachable state satisfies ----

  ghost predicate ServicesExplained(cfg: Config, b0: Boot, b: Boot)
    requires b.phase.Keys <= cfg.Keys
  {
    && (forall n :: n in b.reg.services <==> n in b0.reg.services || GivenBySome(cfg, b, n))
    && (forall e :: e in b.phase && b.phase[e].Applying? ==> b.phase[e].left <= cfg[e].gives)
  }

  ghost predicate UnavailableExplained(cfg: Config, b0: Boot, b: Boot)
    requires b.phase.Keys <= cfg.Keys
  {
    forall n :: n in b.reg.unavailable <==>
                (n in b0.reg.unavailable && !GivenBySome(cfg, b, n)) || DeclaredByFallen(cfg, b, n)
  }

  ghost predicate WaitsExplained(cfg: Config, b: Boot)
    requires b.phase.Keys <= cfg.Keys
  {
    && NoLostWait(b.reg)
    && forall e, d :: e in b.phase && b.phase[e] == Waiting && d in cfg[e].inject ==>
                        WaitExplained(b.reg, Wait(e, d))
  }

  ghost predicate WaitExplained(r: Registry, w: Wait) {
    match StatusOf(r, w)
    case Unknown => false
    case Pending => true
    case Done(Resolved) => w.dep in r.services
    case Done(Rejected) => true
  }

  ghost predicate PhasesExplained(cfg: Config, b: Boot)
    requires b.phase.Keys <= cfg.Keys
  {
    forall e :: e in b.phase ==> PhaseExplained(cfg[e], b.reg, b.phase[e])
  }

  ghost predicate PhaseExplained(spec: Spec, r: Registry, p: Phase) {
    && (Ran(p) ==> forall d :: d in spec.inject ==> d in r.services)
    && (p == Up ==> spec.ok) && (p == Crashed ==> !spec.ok)
  }

  ghost predicate Reached(cfg: Config, b0: Boot, b: Boot) {
    && b.phase.Keys == b0.phase.Keys
    && b.phase.Keys <= cfg.Keys
    && ServicesExplained(cfg, b0, b)
    && UnavailableExplained(cfg, b0, b)
    && WaitsExplained(cfg, b)
    && PhasesExplained(cfg, b)
  }

  lemma StartReached(cfg: Config, b: Boot)
    requires Sane(cfg, b)
    ensures Reached(cfg, b, b)
  {
  }

  /** A state that explains itself: any state some run reaches from a sane one. */
  ghost predicate Steady(cfg: Config, b: Boot) {
    Unmixed(cfg, b) && Reached(cfg, b, b)
  }

  lemma SaneSteady(cfg: Config, b: Boot)
    requires Sane(cfg, b)
    ensures Steady(cfg, b)
  {
    StartReached(cfg, b);
  }

  lemma ReachedSteady(cfg: Config, b0: Boot, b: Boot)
    requires Unmixed(cfg, b0) && Reached(cfg, b0, b)
    ensures Steady(cfg, b)
  {
    hide WaitsExplained, PhasesExplained, GivenBySome, DeclaredByFallen;
  }

  lemma WaitsKept(cfg: Config, b0: Boot, b: Boot)
    requires Reached(cfg, b0, b)
    ensures NoLostWait(b.reg) && WaitsExplained(cfg, b)
  {
    hide ServicesExplained, UnavailableExplained, PhasesExplained;
  }

  /** What one step adds to the services provided so far. */
  lemma GivenStep(cfg: Config, b0: Boot, b: Boot, step: Step, n: Name)
    requires Reached(cfg, b0, b) && CanStep(cfg, b, step)
    ensures GivenBySome(cfg, Do(cfg, b, step), n) <==> GivenBySome(cfg, b, n) || (step.Give? && n == step.name)
    ensures step.Give? ==> step.name in cfg[step.e].gives
  {
    hide UnavailableExplained, PhasesExplained, WaitsExplained, StatusOf, WaitForAll, MarkAll, Provide;
    var e, b' := step.e, Do(cfg, b, step);
    forall f | f != e
      ensures Given(cfg, b', f, n) == Given(cfg, b, f, n)
    {
    }
    if step.Give? {
      assert Given(cfg, b', e, n) == (Given(cfg, b, e, n) || n == step.name);
    } else {
      assert Given(cfg, b', e, n) == Given(cfg, b, e, n);
    }
  }

  lemma ServicesStep(cfg: Config, b0: Boot, b: Boot, step: Step)
    requires Reached(cfg, b0, b) && CanStep(cfg, b, step)
    ensures ServicesExplained(cfg, b0, Do(cfg, b, step))
  {
    hide UnavailableExplained, PhasesExplained, WaitsExplained, StatusOf, GivenBySome, Given;
    var e, b' := step.e, Do(cfg, b, step);
    WaitsKept(cfg, b0, b);
    WaitForAllEffect(b.reg, e, cfg[e].inject);
    MarkAllEffect(b.reg, cfg[e].declares);
    forall n
      ensures n in b'.reg.services <==> n in b0.reg.services || GivenBySome(cfg, b', n)
    {
      GivenStep(cfg, b0, b, step, n);
    }
  }

  /** What one step adds to the services given up by plugins that fell. */
  lemma FallenStep(cfg: Config, b0: Boot, b: Boot, step: Step, n: Name)
    requires Reached(cfg, b0, b) && CanStep(cfg, b, step)
    ensures DeclaredByFallen(cfg, Do(cfg, b, step), n) <==>
            || DeclaredByFallen(cfg, b, n)
            || ((step.Refuse? || (step.Finish? && !cfg[step.e].ok)) && n in cfg[step.e].declares)
  {
    hide ServicesExplained, UnavailableExplained, PhasesExplained, WaitsExplained;
    hide StatusOf, WaitForAll, MarkAll, Provide;
    var b' := Do(cfg, b, step);
    forall f | f in b.phase && f != step.e
      ensures b'.phase[f] == b.phase[f]
    {
    }
  }

  /** A service is only given up by its provider, and not before the provider is done. */
  lemma GiveUnfallen(cfg: Config, b0: Boot, b: Boot, e: Name, n: Name)
    requires Unmixed(cfg, b0) && Reached(cfg, b0, b) && CanStep(cfg, b, Give(e, n))
    ensures !DeclaredByFallen(cfg, b, n)
  {
    hide UnavailableExplained, PhasesExplained, WaitsExplained, StatusOf;
    assert n in cfg[e].gives;
  }

  lemma UnavailableStep(cfg: Config, b0: Boot, b: Boot, step: Step)
    requires Unmixed(cfg, b0) && Reached(cfg, b0, b) && CanStep(cfg, b, step)
    ensures UnavailableExplained(cfg, b0, Do(cfg, b, step))
  {
    WaitsKept(cfg, b0, b);
    WaitForAllEffect(b.reg, step.e, cfg[step.e].inject);
    MarkAllEffect(b.reg, cfg[step.e].declares);
    if step.Give? {
      GiveUnfallen(cfg, b0, b, step.e, step.name);
    }
    hide PhasesExplained, ServicesExplained, WaitsExplained, StatusOf, NoLostWait;
    hide GivenBySome, DeclaredByFallen, Unmixed;
    var b' := Do(cfg, b, step);
    forall n
      ensures n in b'.reg.unavailable <==>
              (n in b0.reg.unavailable && !GivenBySome(cfg, b', n)) || DeclaredByFallen(cfg, b', n)
    {
      GivenStep(cfg, b0, b, step, n);
      FallenStep(cfg, b0, b, step, n);
    }
  }

  lemma RegistryGrows(cfg: Config, b0: Boot, b: Boot, step: Step)
    requires Reached(cfg, b0, b) && CanStep(cfg, b, step)
    ensures var r, r' := b.reg, Do(cfg, b, step).reg;
            r.services <= r'.services && NoLostWait(r')
  {
    WaitsKept(cfg, b0, b);
    hide Reached, StatusOf;
    if step.Give? {
      OperationsLoseNoWait(b.reg, step.name, Wait("", ""));
    } else {
      WaitForAllEffect(b.reg, step.e, cfg[step.e].inject);
      MarkAllEffect(b.reg, cfg[step.e].declares);
    }
  }

  /** What one step does to one wait. */
  lemma WaitStep(cfg: Config, b: Boot, step: Step, w: Wait)
    requires NoLostWait(b.reg) && CanStep(cfg, b, step)
    ensures
      var r, r' := b.reg, Do(cfg, b, step).reg;
      StatusOf(r', w) ==
      if step.Begin? && w.owner == step.e && w.dep in cfg[step.e].inject then Verdict(r, w.dep)
      else if StatusOf(r, w) == Pending && step.Give? && w.dep == step.name then Done(Resolved)
      else if StatusOf(r, w) == Pending && (step.Refuse? || (step.Finish? && !cfg[step.e].ok)) && w.dep in cfg[step.e].declares
        then Done(Rejected)
      else StatusOf(r, w)
  {
    match step
    case Begin(e) => WaitForAllEffect(b.reg, e, cfg[e].inject);
    case Give(e, name) => ProvideEffect(b.reg, name, w);
    case _ => MarkAllEffect(b.reg, cfg[step.e].declares);
  }

  /** A rejection made in this step is about a service that is given up and not provided. */
  lemma FreshRejection(cfg: Config, b: Boot, step: Step, w: Wait)
    requires NoLostWait(b.reg) && CanStep(cfg, b, step)
    requires StatusOf(Do(cfg, b, step).reg, w) == Done(Rejected)
    requires StatusOf(b.reg, w) != Done(Rejected) || (step.Begin? && w.owner == step.e && w.dep in cfg[step.e].inject)
    ensures var r' := Do(cfg, b, step).reg; w.dep in r'.unavailable && w.dep !in r'.services
  {
    WaitStep(cfg, b, step, w);
    if step.Begin? {
      WaitForAllEffect(b.reg, step.e, cfg[step.e].inject);
    } else {
      MarkAllEffect(b.reg, cfg[step.e].declares);
    }
  }

  lemma WaitsStep(cfg: Config, b0: Boot, b: Boot, step: Step)
    requires Reached(cfg, b0, b) && CanStep(cfg, b, step)
    ensures WaitsExplained(cfg, Do(cfg, b, step))
  {
    RegistryGrows(cfg, b0, b, step);
    WaitsKept(cfg, b0, b);
    var b' := Do(cfg, b, step);
    hide ServicesExplained, UnavailableExplained, PhasesExplained;
    forall f, d | f in b'.phase && b'.phase[f] == Waiting && d in cfg[f].inject
      ensures WaitExplained(b'.reg, Wait(f, d))
    {
      OneWaitStep(cfg, b, step, f, d);
    }
  }

  lemma OneWaitStep(cfg: Config, b: Boot, step: Step, f: Name, d: Name)
    requires b.phase.Keys <= cfg.Keys && WaitsExplained(cfg, b) && CanStep(cfg, b, step)
    requires b.reg.services <= Do(cfg, b, step).reg.services
    requires f in b.phase && f in Do(cfg, b, step).phase && Do(cfg, b, step).phase[f] == Waiting && d in cfg[f].inject
    ensures WaitExplained(Do(cfg, b, step).reg, Wait(f, d))
  {
    var w := Wait(f, d);
    WaitStep(cfg, b, step, w);
    if b.phase[f] == Waiting {
      assert WaitExplained(b.reg, w);
    }
    GivenNow(cfg, b, step);
    hide StatusOf, WaitForAll, MarkAll, Provide, WaitsExplained;
  }

  lemma GivenNow(cfg: Config, b: Boot, step: Step)
    requires CanStep(cfg, b, step)
    ensures step.Give? ==> step.name in Do(cfg, b, step).reg.services
  {
  }

  lemma PhasesStep(cfg: Config, b0: Boot, b: Boot, step: Step)
    requires Reached(cfg, b0, b) && CanStep(cfg, b, step)
    ensures PhasesExplained(cfg, Do(cfg, b, step))
  {
    RegistryGrows(cfg, b0, b, step);
    hide ServicesExplained, UnavailableExplained, StatusOf, WaitForAll, MarkAll, Provide;
    var e, b' := step.e, Do(cfg, b, step);
    if step.Proceed? {
      ProceedFed(cfg, b0, b, e);
    }
    forall f | f in b'.phase
      ensures PhaseExplained(cfg[f], b'.reg, b'.phase[f])
    {
      assert PhaseExplained(cfg[f], b.reg, b.phase[f]);
    }
  }

  lemma ProceedFed(cfg: Config, b0: Boot, s: Boot, e: Name)
    requires Reached(cfg, b0, s) && CanStep(cfg, s, Proceed(e))
    ensures forall d :: d in cfg[e].inject ==> d in s.reg.services
  {
    hide ServicesExplained, UnavailableExplained, PhasesExplained;
    forall d | d in cfg[e].inject
      ensures d in s.reg.services
    {
      assert WaitExplained(s.reg, Wait(e, d));
    }
  }

  lemma StepReached(cfg: Config, b0: Boot, b: Boot, step: Step)
    requires Unmixed(cfg, b0) && Reached(cfg, b0, b) && CanStep(cfg, b, step)
    ensures Reached(cfg, b0, Do(cfg, b, step))
  {
    hide ServicesExplained, UnavailableExplained, WaitsExplained, PhasesExplained, Unmixed;
    ServicesStep(cfg, b0, b, step);
    UnavailableStep(cfg, b0, b, step);
    WaitsStep(cfg, b0, b, step);
    PhasesStep(cfg, b0, b, step);
  }

  lemma {:induction false} RunReached(cfg: Config, b0: Boot, b: Boot, steps: seq<Step>)
    requires Unmixed(cfg, b0) && Reached(cfg, b0, b) && IsRun(cfg, b, steps)
    ensures Reached(cfg, b0, End(cfg, b, steps))
    decreases |steps|
  {
    hide Reached, Unmixed, CanStep, Do;
    if steps != [] {
      StepReached(cfg, b0, b, steps[0]);
      RunReached(cfg, b0, Do(cfg, b, steps[0]), steps[1..]);
    }
  }

  // ---- every run ends ----

  function StepsLeft(cfg: Config, e: Name, p: Phase): nat {
    match p
    case Fresh => if e in cfg then |cfg[e].gives| + 4 else 4
    case Waiting => if e in cfg then |cfg[e].gives| + 3 else 3
    case Applying(left) => |left| + 1
    case _ => 0
  }

  ghost function Budgets(cfg: Config, phase: map<Name, Phase>): map<Name, int> {
    map e | e in phase :: StepsLeft(cfg, e, phase[e])
  }

  ghost function Budget(cfg: Config, phase: map<Name, Phase>): int {
    Sum(Budgets(cfg, phase))
  }

  lemma BudgetUpdate(cfg: Config, phase: map<Name, Phase>, e: Name, p: Phase)
    requires e in phase
    ensures Budget(cfg, phase[e := p]) == Budget(cfg, phase) + StepsLeft(cfg, e, p) - StepsLeft(cfg, e, phase[e])
  {
    SumUpdate(Budgets(cfg, phase), e, StepsLeft(cfg, e, p));
    assert Budgets(cfg, phase[e := p]) == Budgets(cfg, phase)[e := StepsLeft(cfg, e, p)];
  }

  lemma BudgetNonNegative(cfg: Config, phase: map<Name, Phase>)
    ensures Budget(cfg, phase) >= 0
  {
    SumNonNegative(Budgets(cfg, phase));
  }

  lemma StepSpends(cfg: Config, b: Boot, step: Step)
    requires CanStep(cfg, b, step)
    ensures Budget(cfg, Do(cfg, b, step).phase) < Budget(cfg, b.phase)
  {
    hide Budget;
    var e, b' := step.e, Do(cfg, b, step);
    BudgetUpdate(cfg, b.phase, e, b'.phase[e]);
    assert b'.phase == b.phase[e := b'.phase[e]];
  }

  /** No interleaving runs longer than the budget of its first state. */
  lemma {:induction false} EveryRunEnds(cfg: Config, b: Boot, steps: seq<Step>)
    requires IsRun(cfg, b, steps)
    ensures |steps| <= Budget(cfg, b.phase)
    decreases |steps|
  {
    hide Budget, CanStep, Do;
    if steps == [] {
      BudgetNonNegative(cfg, b.phase);
    } else {
      StepSpends(cfg, b, steps[0]);
      EveryRunEnds(cfg, Do(cfg, b, steps[0]), steps[1..]);
    }
  }
}
