/**
 What becomes of the plugins from any state of a start. Which of them can ever start and which
 are doomed can be computed from the state; the only thing left to timing is when a plugin
 that has not begun yet asks for its services. After the pass of `start` there is none; plugins
 registered while booting are such.
 */
module PluginFate {
  import opened PluginRegistry
  import opened PluginStart

  // ---- runs put together ----

  lemma {:induction false} RunThen(cfg: Config, b: Boot, one: seq<Step>, two: seq<Step>)
    requires IsRun(cfg, b, one) && IsRun(cfg, End(cfg, b, one), two)
    ensures IsRun(cfg, b, one + two) && End(cfg, b, one + two) == End(cfg, End(cfg, b, one), two)
    decreases |one|
  {
    hide CanStep, Do;
    if one == [] {
      assert [] + two == two;
    } else {
      RunThen(cfg, Do(cfg, b, one[0]), one[1..], two);
      assert (one + two)[1..] == one[1..] + two;
    }
  }

  lemma EmptyRun(cfg: Config, b: Boot)
    ensures IsRun(cfg, b, []) && End(cfg, b, []) == b
  {
  }

  lemma Prepend(cfg: Config, b: Boot, step: Step, rest: seq<Step>)
    requires CanStep(cfg, b, step) && IsRun(cfg, Do(cfg, b, step), rest)
    ensures IsRun(cfg, b, [step] + rest) && End(cfg, b, [step] + rest) == End(cfg, Do(cfg, b, step), rest)
  {
    assert ([step] + rest)[1..] == rest;
  }

  lemma Append(cfg: Config, b: Boot, steps: seq<Step>, step: Step)
    requires IsRun(cfg, b, steps) && CanStep(cfg, End(cfg, b, steps), step)
    ensures IsRun(cfg, b, steps + [step]) && End(cfg, b, steps + [step]) == Do(cfg, End(cfg, b, steps), step)
  {
    var mid := End(cfg, b, steps);
    EmptyRun(cfg, Do(cfg, mid, step));
    Prepend(cfg, mid, step, []);
    assert [step] + [] == [step];
    RunThen(cfg, b, steps, [step]);
  }

  /** From every state some run goes on until no step is left. */
  lemma {:induction false} CanComplete(cfg: Config, b: Boot) returns (steps: seq<Step>)
    ensures Complete(cfg, b, steps)
    decreases Budget(cfg, b.phase)
  {
    hide CanStep, Budget;
    EmptyRun(cfg, b);
    steps := [];
    if step :| CanStep(cfg, b, step) {
      StepSpends(cfg, b, step);
      BudgetNonNegative(cfg, b.phase);
      steps := CanComplete(cfg, Do(cfg, b, step));
      Prepend(cfg, b, step, steps);
      steps := [step] + steps;
    }
  }

  // ---- who can start ----

  /** Provided in the base state or by a plugin of `x`. */
  ghost predicate Supplied(cfg: Config, b0: Boot, x: set<Name>, d: Name) {
    d in b0.reg.services || exists f :: f in x && f in b0.phase && f in cfg && d in cfg[f].gives
  }

  ghost predicate AllSupplied(cfg: Config, b0: Boot, x: set<Name>, deps: seq<Name>) {
    forall d :: d in deps ==> Supplied(cfg, b0, x, d)
  }

  /** Waiting, with an answer already that one of its services will not come. */
  ghost predicate TurnedAway(cfg: Config, b: Boot, e: Name) {
    && e in b.phase && e in cfg && b.phase[e] == Waiting
    && exists d :: d in cfg[e].inject && StatusOf(b.reg, Wait(e, d)) == Done(Rejected)
  }

  ghost predicate CanTry(cfg: Config, b: Boot, e: Name) {
    e in b.phase && (b.phase[e] == Fresh || (b.phase[e] == Waiting && !TurnedAway(cfg, b, e)))
  }

  /** Running or past it, or able to run on what `x` supplies. */
  ghost predicate Admitted(cfg: Config, b0: Boot, x: set<Name>, e: Name) {
    && e in b0.phase && e in cfg
    && (Ran(b0.phase[e]) || (CanTry(cfg, b0, e) && AllSupplied(cfg, b0, x, cfg[e].inject)))
  }

  ghost predicate Closed(cfg: Config, b0: Boot, x: set<Name>) {
    forall e :: Admitted(cfg, b0, x, e) ==> e in x
  }

  /** The plugins that are in every set closed under starting. */
  ghost function Startable(cfg: Config, b0: Boot): set<Name> {
    set e | e in b0.phase && forall x: set<Name> :: Closed(cfg, b0, x) ==> e in x
  }

  lemma MoreAdmitted(cfg: Config, b0: Boot, x: set<Name>, y: set<Name>, e: Name)
    requires x <= y && Admitted(cfg, b0, x, e)
    ensures Admitted(cfg, b0, y, e)
  {
    hide CanTry;
    forall d | d in cfg[e].inject && AllSupplied(cfg, b0, x, cfg[e].inject)
      ensures Supplied(cfg, b0, y, d)
    {
      assert Supplied(cfg, b0, x, d);
    }
  }

  /** They are the least such set, and each of them is running or admitted by the others. */
  lemma StartableLeast(cfg: Config, b0: Boot)
    ensures Closed(cfg, b0, Startable(cfg, b0))
    ensures forall x :: Closed(cfg, b0, x) ==> Startable(cfg, b0) <= x
    ensures forall e :: e in Startable(cfg, b0) ==> Admitted(cfg, b0, Startable(cfg, b0), e)
  {
    var l := Startable(cfg, b0);
    hide Admitted;
    forall e | Admitted(cfg, b0, l, e)
      ensures e in l
    {
      forall x | Closed(cfg, b0, x)
        ensures e in x
      {
        MoreAdmitted(cfg, b0, l, x, e);
      }
      AdmittedKnown(cfg, b0, l, e);
    }
    forall e | e in l
      ensures Admitted(cfg, b0, l, e)
    {
      ClosedWithout(cfg, b0, l, e);
    }
  }

  lemma AdmittedKnown(cfg: Config, b0: Boot, x: set<Name>, e: Name)
    requires Admitted(cfg, b0, x, e)
    ensures e in b0.phase && e in cfg
  {
  }

  /** Taking out a member the others do not admit leaves a closed set. */
  lemma ClosedWithout(cfg: Config, b0: Boot, l: set<Name>, e: Name)
    requires Closed(cfg, b0, l) && e in l
    ensures Admitted(cfg, b0, l, e) || Closed(cfg, b0, l - {e})
  {
    hide Admitted;
    forall f | Admitted(cfg, b0, l - {e}, f)
      ensures f in l && Admitted(cfg, b0, l, f)
    {
      MoreAdmitted(cfg, b0, l - {e}, l, f);
    }
  }

  ghost function RanSet(b: Boot): set<Name> {
    set e | e in b.phase && Ran(b.phase[e])
  }

  lemma ServicesSupplied(cfg: Config, b0: Boot, b: Boot, x: set<Name>)
    requires Reached(cfg, b0, b) && RanSet(b) <= x
    ensures forall d :: d in b.reg.services ==> Supplied(cfg, b0, x, d)
  {
    hide UnavailableExplained, WaitsExplained, PhasesExplained;
    forall d | d in b.reg.services
      ensures Supplied(cfg, b0, x, d)
    {
      if d !in b0.reg.services {
        var f :| Given(cfg, b, f, d);
        assert f in RanSet(b);
      }
    }
  }

  // ---- nothing goes backwards ----

  /** `e` is no less far in `b` than in `b0`, and an answer that turned it away stands. */
  ghost predicate FurtherOn(cfg: Config, b0: Boot, b: Boot, e: Name)
    requires e in b0.phase && e in b.phase
  {
    && (b.phase[e] == Fresh ==> b0.phase[e] == Fresh)
    && (b.phase[e] == Waiting ==> b0.phase[e] == Fresh || b0.phase[e] == Waiting)
    && (Ran(b0.phase[e]) ==> Ran(b.phase[e]))
    && (b0.phase[e] == Refused ==> b.phase[e] == Refused)
    && (TurnedAway(cfg, b0, e) ==> TurnedAway(cfg, b, e) || b.phase[e] == Refused)
  }

  ghost predicate Later(cfg: Config, b0: Boot, b: Boot) {
    b0.phase.Keys == b.phase.Keys && forall e :: e in b.phase ==> FurtherOn(cfg, b0, b, e)
  }

  lemma LaterStep(cfg: Config, b: Boot, step: Step)
    requires NoLostWait(b.reg) && CanStep(cfg, b, step)
    ensures Later(cfg, b, Do(cfg, b, step))
  {
    var b' := Do(cfg, b, step);
    forall e | e in b.phase
      ensures FurtherOn(cfg, b, b', e)
    {
      if d :| TurnedAway(cfg, b, e) && d in cfg[e].inject && StatusOf(b.reg, Wait(e, d)) == Done(Rejected) {
        WaitStep(cfg, b, step, Wait(e, d));
      }
      hide StatusOf, WaitForAll, MarkAll, Provide;
    }
  }

  lemma LaterOn(cfg: Config, a: Boot, b: Boot, c: Boot)
    requires Later(cfg, a, b) && Later(cfg, b, c)
    ensures Later(cfg, a, c)
  {
    hide TurnedAway;
    forall e | e in c.phase
      ensures FurtherOn(cfg, a, c, e)
    {
      assert FurtherOn(cfg, a, b, e) && FurtherOn(cfg, b, c, e);
    }
  }

  /** Whoever runs is admitted by those who ran before. */
  lemma ProceedAdmitted(cfg: Config, b0: Boot, b: Boot, e: Name, x: set<Name>)
    requires Reached(cfg, b0, b) && Later(cfg, b0, b) && CanStep(cfg, b, Proceed(e)) && RanSet(b) <= x
    ensures Admitted(cfg, b0, x, e)
  {
    ProceedFed(cfg, b0, b, e);
    ServicesSupplied(cfg, b0, b, x);
    hide Supplied, StatusOf, ServicesExplained, UnavailableExplained, WaitsExplained, PhasesExplained;
    assert FurtherOn(cfg, b0, b, e);
    NotTurnedAway(cfg, b, e);
  }

  lemma NotTurnedAway(cfg: Config, b: Boot, e: Name)
    requires CanStep(cfg, b, Proceed(e))
    ensures !TurnedAway(cfg, b, e)
  {
  }

  lemma RanStep(cfg: Config, b0: Boot, b: Boot, step: Step, x: set<Name>)
    requires Reached(cfg, b0, b) && Later(cfg, b0, b) && CanStep(cfg, b, step) && Closed(cfg, b0, x) && RanSet(b) <= x
    ensures RanSet(Do(cfg, b, step)) <= x
  {
    if step.Proceed? {
      ProceedAdmitted(cfg, b0, b, step.e, x);
    }
    hide Admitted, Later, StatusOf, WaitForAll, MarkAll, Provide;
    hide ServicesExplained, UnavailableExplained, WaitsExplained, PhasesExplained;
    forall f | f in RanSet(Do(cfg, b, step))
      ensures f in x
    {
      if f != step.e || !step.Proceed? {
        assert f in RanSet(b);
      }
    }
  }

  lemma ReachedKeys(cfg: Config, b0: Boot, b: Boot)
    requires Reached(cfg, b0, b)
    ensures b.phase.Keys == b0.phase.Keys && b.phase.Keys <= cfg.Keys
  {
  }

  /** No run, complete or not, starts anybody else. */
  lemma {:induction false} OnlyStartableRun(cfg: Config, b0: Boot, b: Boot, steps: seq<Step>)
    requires Unmixed(cfg, b0) && Reached(cfg, b0, b) && Later(cfg, b0, b) && IsRun(cfg, b, steps)
    requires RanSet(b) <= Startable(cfg, b0)
    ensures RanSet(End(cfg, b, steps)) <= Startable(cfg, b0) && Later(cfg, b0, End(cfg, b, steps))
    decreases |steps|
  {
    hide Unmixed, Reached, Closed, CanStep, Do, RanSet, Startable, Later, Admitted;
    if steps != [] {
      var b' := Do(cfg, b, steps[0]);
      StepReached(cfg, b0, b, steps[0]);
      StartableLeast(cfg, b0);
      RanStep(cfg, b0, b, steps[0], Startable(cfg, b0));
      WaitsKept(cfg, b0, b);
      LaterStep(cfg, b, steps[0]);
      LaterOn(cfg, b0, b, b');
      OnlyStartableRun(cfg, b0, b', steps[1..]);
    }
  }

  // ---- who is doomed ----

  /** Given up in the base state, and not provided in it either. */
  ghost predicate Lost(b0: Boot, d: Name) {
    d in b0.reg.unavailable && d !in b0.reg.services
  }

  /** Given up in the base state, or declared by a plugin that crashes or is in `m`. */
  ghost predicate Forsaken(cfg: Config, b0: Boot, m: set<Name>, d: Name) {
    || d in b0.reg.unavailable
    || exists g :: g in b0.phase && g in cfg && d in cfg[g].declares
                   && ((g in Startable(cfg, b0) && !cfg[g].ok) || g in m)
  }

  /**
   Closed under refusal: whoever is refused or turned away already is in, and so is whoever
   injects a service that nobody supplies and that is forsaken.
   */
  ghost predicate RefusalClosed(cfg: Config, b0: Boot, m: set<Name>) {
    && (forall f :: f in b0.phase && b0.phase[f] == Refused ==> f in m)
    && (forall f :: TurnedAway(cfg, b0, f) ==> f in m)
    && forall f, d :: (&& f in b0.phase && f in cfg && d in cfg[f].inject
                       && !Supplied(cfg, b0, Startable(cfg, b0), d) && Forsaken(cfg, b0, m, d)) ==> f in m
  }

  ghost function Doomed(cfg: Config, b0: Boot): set<Name> {
    set f | f in b0.phase && forall m: set<Name> :: RefusalClosed(cfg, b0, m) ==> f in m
  }

  /** They are the least set closed under refusal, and none of them can start. */
  lemma DoomedLeast(cfg: Config, b0: Boot)
    requires Steady(cfg, b0)
    ensures RefusalClosed(cfg, b0, Doomed(cfg, b0))
    ensures forall m :: RefusalClosed(cfg, b0, m) ==> Doomed(cfg, b0) <= m
    ensures Doomed(cfg, b0) !! Startable(cfg, b0)
  {
    var doomed := Doomed(cfg, b0);
    hide Startable, Supplied, Steady;
    forall f, d | f in b0.phase && f in cfg && d in cfg[f].inject
                  && !Supplied(cfg, b0, Startable(cfg, b0), d) && Forsaken(cfg, b0, doomed, d)
      ensures f in doomed
    {
      forall m | RefusalClosed(cfg, b0, m)
        ensures f in m
      {
        assert Forsaken(cfg, b0, m, d);
      }
    }
    UnstartableClosed(cfg, b0);
  }

  /** Whoever can start is neither refused nor turned away, and has its services supplied. */
  lemma StartableSupplied(cfg: Config, b0: Boot, e: Name)
    requires Steady(cfg, b0) && e in Startable(cfg, b0)
    ensures e in b0.phase && e in cfg && b0.phase[e] != Refused && !TurnedAway(cfg, b0, e)
    ensures forall d :: d in cfg[e].inject ==> Supplied(cfg, b0, Startable(cfg, b0), d)
  {
    hide Startable, StatusOf, Closed;
    StartableLeast(cfg, b0);
    AdmittedKnown(cfg, b0, Startable(cfg, b0), e);
    RanAgrees(cfg, b0, b0, e);
    hide Steady;
  }

  /** Whoever cannot start at all: a set closed under refusal. */
  lemma UnstartableClosed(cfg: Config, b0: Boot)
    requires Steady(cfg, b0)
    ensures RefusalClosed(cfg, b0, b0.phase.Keys - Startable(cfg, b0))
  {
    hide Startable, Supplied, Forsaken, Steady;
    forall f | f in Startable(cfg, b0)
      ensures f in b0.phase && f in cfg && b0.phase[f] != Refused && !TurnedAway(cfg, b0, f)
      ensures forall d :: d in cfg[f].inject ==> Supplied(cfg, b0, Startable(cfg, b0), d)
    {
      StartableSupplied(cfg, b0, f);
    }
  }

  // ---- what refusals there can be ----

  /** Refused plugins, and plugins turned away, are in `m`. */
  ghost predicate RefusedIn(b: Boot, m: set<Name>) {
    forall f :: f in b.phase && b.phase[f] == Refused ==> f in m
  }

  ghost predicate TurnedAwayIn(cfg: Config, b: Boot, m: set<Name>) {
    forall f :: TurnedAway(cfg, b, f) ==> f in m
  }

  ghost predicate Tame(cfg: Config, b0: Boot, b: Boot, m: set<Name>) {
    && RanSet(b) <= Startable(cfg, b0)
    && Later(cfg, b0, b)
    && RefusedIn(b, m)
    && TurnedAwayIn(cfg, b, m)
  }

  /** An enclosure of the refusals: closed under refusal and apart from whoever can start. */
  ghost predicate Encloses(cfg: Config, b0: Boot, m: set<Name>) {
    RefusalClosed(cfg, b0, m) && m !! Startable(cfg, b0)
  }

  /** `f` may begin now: each lost service it injects is there, is never supplied, or `f` is in `m` anyway. */
  ghost predicate MayBegin(cfg: Config, b0: Boot, b: Boot, m: set<Name>, f: Name) {
    forall d :: (&& f in cfg && d in cfg[f].inject
                 && Lost(b0, d) && Supplied(cfg, b0, Startable(cfg, b0), d) && d !in b.reg.services) ==> f in m
  }

  /** Whoever has not begun may begin, now and later. */
  ghost predicate Contained(cfg: Config, b0: Boot, b: Boot, m: set<Name>) {
    forall f :: f in b0.phase && b0.phase[f] == Fresh ==> MayBegin(cfg, b0, b, m, f)
  }

  /** A supplied service is never dead because of a plugin that fell. */
  lemma SuppliedUnfallen(cfg: Config, b0: Boot, b: Boot, m: set<Name>, d: Name)
    requires Unmixed(cfg, b0) && Reached(cfg, b0, b) && RefusedIn(b, m) && m !! Startable(cfg, b0)
    requires Supplied(cfg, b0, Startable(cfg, b0), d) && d !in b.reg.services
    ensures !DeclaredByFallen(cfg, b, d)
  {
    hide Startable, UnavailableExplained, WaitsExplained, PhasesExplained;
    forall g | g in b.phase && d in cfg[g].declares
      ensures !Fallen(b.phase[g])
    {
      var f :| f in Startable(cfg, b0) && f in b0.phase && f in cfg && d in cfg[f].gives;
      assert f == g;
      assert b.phase[g] == Crashed ==> Given(cfg, b, g, d);
    }
  }

  /** An unsupplied service declared by a plugin that fell is forsaken. */
  lemma FallenForsaken(cfg: Config, b0: Boot, b: Boot, m: set<Name>, d: Name)
    requires Reached(cfg, b0, b) && RefusedIn(b, m) && RanSet(b) <= Startable(cfg, b0) && DeclaredByFallen(cfg, b, d)
    ensures Forsaken(cfg, b0, m, d)
  {
    hide Startable, ServicesExplained, UnavailableExplained, WaitsExplained;
    var g :| g in b.phase && g in cfg && Fallen(b.phase[g]) && d in cfg[g].declares;
    assert PhaseExplained(cfg[g], b.reg, b.phase[g]);
    if b.phase[g] == Crashed {
      assert g in RanSet(b);
    }
  }

  lemma LostForsaken(cfg: Config, b0: Boot, m: set<Name>, d: Name)
    requires d in b0.reg.unavailable
    ensures Forsaken(cfg, b0, m, d)
  {
  }

  /** Whoever injects a dead service is in the enclosure, unless it was lost and is supplied later. */
  lemma DeadInjector(cfg: Config, b0: Boot, b: Boot, m: set<Name>, f: Name, d: Name)
    requires Unmixed(cfg, b0) && Reached(cfg, b0, b) && Encloses(cfg, b0, m)
    requires RanSet(b) <= Startable(cfg, b0) && RefusedIn(b, m)
    requires f in b0.phase && f in cfg && d in cfg[f].inject && d in b.reg.unavailable && d !in b.reg.services
    requires Lost(b0, d) && Supplied(cfg, b0, Startable(cfg, b0), d) ==> f in m
    ensures f in m
  {
    hide Startable, Supplied, Forsaken, WaitsExplained, PhasesExplained, DeclaredByFallen, GivenBySome, Unmixed;
    if Supplied(cfg, b0, Startable(cfg, b0), d) {
      SuppliedUnfallen(cfg, b0, b, m, d);
    } else if DeclaredByFallen(cfg, b, d) {
      FallenForsaken(cfg, b0, b, m, d);
    } else {
      LostForsaken(cfg, b0, m, d);
    }
  }

  lemma RefusedStep(cfg: Config, b: Boot, m: set<Name>, step: Step)
    requires RefusedIn(b, m) && TurnedAwayIn(cfg, b, m) && CanStep(cfg, b, step)
    ensures RefusedIn(Do(cfg, b, step), m)
  {
    hide StatusOf, WaitForAll, MarkAll, Provide;
    if step.Refuse? {
      assert TurnedAway(cfg, b, step.e);
    }
  }

  lemma ContainedStep(cfg: Config, b0: Boot, b: Boot, m: set<Name>, step: Step)
    requires Contained(cfg, b0, b, m) && CanStep(cfg, b, step) && b.reg.services <= Do(cfg, b, step).reg.services
    ensures Contained(cfg, b0, Do(cfg, b, step), m)
  {
    hide Supplied, Startable, Do, CanStep;
    forall f | f in b0.phase && b0.phase[f] == Fresh
      ensures MayBegin(cfg, b0, Do(cfg, b, step), m, f)
    {
      assert MayBegin(cfg, b0, b, m, f);
    }
  }

  /** A plugin newly turned away was turned away by a dead service, on asking or on waiting for it. */
  lemma NewRejection(cfg: Config, b: Boot, step: Step, f: Name, d: Name)
    requires NoLostWait(b.reg) && CanStep(cfg, b, step) && f in b.phase && f in Do(cfg, b, step).phase
    requires Do(cfg, b, step).phase[f] == Waiting && f in cfg && d in cfg[f].inject
    requires StatusOf(Do(cfg, b, step).reg, Wait(f, d)) == Done(Rejected)
    requires !TurnedAway(cfg, b, f)
    ensures var r' := Do(cfg, b, step).reg; d in r'.unavailable && d !in r'.services
    ensures step == Begin(f) || (d !in b.reg.unavailable && d !in b.reg.services)
  {
    WaitStep(cfg, b, step, Wait(f, d));
    hide WaitForAll, MarkAll, Provide;
    FreshRejection(cfg, b, step, Wait(f, d));
  }

  /** A service that is pending somewhere is not one of the lost. */
  lemma PendingNotLost(cfg: Config, b0: Boot, b: Boot, d: Name)
    requires Reached(cfg, b0, b) && d !in b.reg.unavailable && d !in b.reg.services
    ensures !Lost(b0, d)
  {
    hide WaitsExplained, PhasesExplained, GivenBySome, DeclaredByFallen;
  }

  lemma TurnedAwayStep(cfg: Config, b0: Boot, b: Boot, m: set<Name>, step: Step)
    requires Unmixed(cfg, b0) && Reached(cfg, b0, b) && Encloses(cfg, b0, m)
    requires TurnedAwayIn(cfg, b, m) && Later(cfg, b0, b) && CanStep(cfg, b, step)
    requires step.Begin? ==> MayBegin(cfg, b0, b, m, step.e)
    requires Reached(cfg, b0, Do(cfg, b, step)) && RanSet(Do(cfg, b, step)) <= Startable(cfg, b0)
    requires RefusedIn(Do(cfg, b, step), m)
    ensures TurnedAwayIn(cfg, Do(cfg, b, step), m)
  {
    WaitsKept(cfg, b0, b);
    RegistryGrows(cfg, b0, b, step);
    hide Unmixed, Reached, Encloses, StatusOf, Startable, RanSet, RefusedIn, NoLostWait, Do, CanStep, Later, Supplied;
    var b' := Do(cfg, b, step);
    ReachedKeys(cfg, b0, b);
    ReachedKeys(cfg, b0, b');
    forall f | TurnedAway(cfg, b', f)
      ensures f in m
    {
      if !TurnedAway(cfg, b, f) {
        var d :| d in cfg[f].inject && StatusOf(b'.reg, Wait(f, d)) == Done(Rejected);
        NewRejection(cfg, b, step, f, d);
        if step != Begin(f) {
          PendingNotLost(cfg, b0, b, d);
        }
        DeadInjector(cfg, b0, b', m, f, d);
      }
    }
  }

  lemma TameStep(cfg: Config, b0: Boot, b: Boot, m: set<Name>, step: Step)
    requires Unmixed(cfg, b0) && Reached(cfg, b0, b) && Encloses(cfg, b0, m)
    requires Tame(cfg, b0, b, m) && CanStep(cfg, b, step)
    requires step.Begin? ==> MayBegin(cfg, b0, b, m, step.e)
    ensures Reached(cfg, b0, Do(cfg, b, step)) && Tame(cfg, b0, Do(cfg, b, step), m)
  {
    hide Unmixed, Reached, Encloses, MayBegin, Startable, RanSet, RefusedIn, TurnedAwayIn, CanStep, Do, Closed, Later;
    StepReached(cfg, b0, b, step);
    StartableLeast(cfg, b0);
    RanStep(cfg, b0, b, step, Startable(cfg, b0));
    RefusedStep(cfg, b, m, step);
    WaitsKept(cfg, b0, b);
    LaterStep(cfg, b, step);
    LaterOn(cfg, b0, b, Do(cfg, b, step));
    TurnedAwayStep(cfg, b0, b, m, step);
  }

  lemma BeginFresh(cfg: Config, b0: Boot, b: Boot, m: set<Name>, step: Step)
    requires Later(cfg, b0, b) && Contained(cfg, b0, b, m) && CanStep(cfg, b, step)
    ensures step.Begin? ==> MayBegin(cfg, b0, b, m, step.e)
  {
    hide MayBegin, TurnedAway, StatusOf;
  }

  lemma {:induction false} TameRun(cfg: Config, b0: Boot, b: Boot, m: set<Name>, steps: seq<Step>)
    requires Unmixed(cfg, b0) && Reached(cfg, b0, b) && Encloses(cfg, b0, m)
    requires Tame(cfg, b0, b, m) && Contained(cfg, b0, b, m) && IsRun(cfg, b, steps)
    ensures Reached(cfg, b0, End(cfg, b, steps)) && Tame(cfg, b0, End(cfg, b, steps), m)
    decreases |steps|
  {
    hide Unmixed, Reached, Encloses, Contained, CanStep, Do, MayBegin, Startable, RanSet, RefusedIn, TurnedAwayIn, Later;
    if steps != [] {
      BeginFresh(cfg, b0, b, m, steps[0]);
      TameStep(cfg, b0, b, m, steps[0]);
      RegistryGrows(cfg, b0, b, steps[0]);
      ContainedStep(cfg, b0, b, m, steps[0]);
      TameRun(cfg, b0, Do(cfg, b, steps[0]), m, steps[1..]);
    }
  }

  // ---- states in which nobody who is fed can move ----

  /** A step in which nobody asks for a service that is not there. */
  ghost predicate FedStep(cfg: Config, b: Boot, step: Step) {
    CanStep(cfg, b, step) && (step.Begin? ==> forall d :: d in cfg[step.e].inject ==> d in b.reg.services)
  }

  ghost predicate FedOut(cfg: Config, b: Boot) {
    forall step :: !FedStep(cfg, b, step)
  }

  lemma ApplyingMoves(cfg: Config, t: Boot, e: Name)
    requires e in t.phase && e in cfg && t.phase[e].Applying?
    ensures exists step :: CanStep(cfg, t, step) && FedStep(cfg, t, step)
  {
    if n :| n in t.phase[e].left {
      assert FedStep(cfg, t, Give(e, n));
    } else {
      assert t.phase[e].left == {};
      assert FedStep(cfg, t, Finish(e));
    }
  }

  lemma NotApplying(cfg: Config, t: Boot, e: Name)
    requires FedOut(cfg, t) && e in t.phase && e in cfg
    ensures !t.phase[e].Applying?
  {
    if t.phase[e].Applying? {
      ApplyingMoves(cfg, t, e);
    }
  }

  lemma NothingLeft(cfg: Config, t: Boot, e: Name)
    requires Terminal(cfg, t) && e in t.phase && e in cfg
    ensures t.phase[e] in {Waiting, Up, Crashed, Refused}
  {
    assert !CanStep(cfg, t, Begin(e));
    if t.phase[e].Applying? {
      ApplyingMoves(cfg, t, e);
    }
  }

  /** A plugin left waiting has a wait that is still pending, and none that was rejected. */
  lemma LeftWaiting(cfg: Config, b0: Boot, t: Boot, e: Name)
    requires Reached(cfg, b0, t) && FedOut(cfg, t) && e in t.phase && t.phase[e] == Waiting
    ensures !TurnedAway(cfg, t, e)
    ensures forall d :: d in cfg[e].inject && d in t.reg.unavailable ==> d in t.reg.services
    ensures exists d :: d in cfg[e].inject && d !in t.reg.services && d !in t.reg.unavailable
  {
    hide ServicesExplained, UnavailableExplained, PhasesExplained;
    assert !FedStep(cfg, t, Proceed(e)) && !FedStep(cfg, t, Refuse(e));
    forall d | d in cfg[e].inject
      ensures WaitExplained(t.reg, Wait(e, d))
    {
    }
  }

  lemma RanAgrees(cfg: Config, b0: Boot, t: Boot, e: Name)
    requires Reached(cfg, b0, t) && e in t.phase
    ensures Ran(t.phase[e]) ==> forall d :: d in cfg[e].inject ==> d in t.reg.services
    ensures t.phase[e] == Up ==> cfg[e].ok
    ensures t.phase[e] == Crashed ==> !cfg[e].ok
  {
    hide ServicesExplained, UnavailableExplained, WaitsExplained;
    assert PhaseExplained(cfg[e], t.reg, t.phase[e]);
  }

  lemma SuppliedProvided(cfg: Config, b0: Boot, t: Boot, d: Name)
    requires Reached(cfg, b0, t) && FedOut(cfg, t) && Supplied(cfg, b0, RanSet(t), d)
    ensures d in t.reg.services
  {
    hide UnavailableExplained, WaitsExplained, PhasesExplained;
    if d !in b0.reg.services {
      var f :| f in RanSet(t) && f in b0.phase && f in cfg && d in cfg[f].gives;
      NotApplying(cfg, t, f);
      assert Given(cfg, t, f, d);
      assert GivenBySome(cfg, t, d);
    }
  }

  lemma FreshMoves(cfg: Config, t: Boot, e: Name)
    requires e in t.phase && e in cfg && t.phase[e] == Fresh
    requires forall d :: d in cfg[e].inject ==> d in t.reg.services
    ensures FedStep(cfg, t, Begin(e))
  {
  }

  /** Somebody who finds all services there and was not turned away has run. */
  lemma FedRan(cfg: Config, b0: Boot, t: Boot, e: Name)
    requires Reached(cfg, b0, t) && FedOut(cfg, t) && e in t.phase && e in cfg
    requires forall d :: d in cfg[e].inject ==> d in t.reg.services
    ensures Ran(t.phase[e]) || t.phase[e] == Refused
  {
    hide Reached, StatusOf;
    if t.phase[e] == Fresh {
      FreshMoves(cfg, t, e);
    } else if t.phase[e] == Waiting {
      LeftWaiting(cfg, b0, t, e);
    }
  }

  /** When nobody who is fed can move and refusals were enclosed, everybody who could start has run. */
  lemma StartableRan(cfg: Config, b0: Boot, t: Boot, m: set<Name>)
    requires Reached(cfg, b0, t) && FedOut(cfg, t) && Tame(cfg, b0, t, m) && m !! Startable(cfg, b0)
    ensures RanSet(t) == Startable(cfg, b0)
  {
    hide Reached, Startable, Supplied, FedOut, StatusOf, TurnedAway, CanTry;
    ReachedKeys(cfg, b0, t);
    StartableLeast(cfg, b0);
    forall e | Admitted(cfg, b0, RanSet(t), e)
      ensures e in RanSet(t)
    {
      MoreAdmitted(cfg, b0, RanSet(t), Startable(cfg, b0), e);
      assert FurtherOn(cfg, b0, t, e);
      if !Ran(t.phase[e]) {
        forall d | d in cfg[e].inject
          ensures d in t.reg.services
        {
          SuppliedProvided(cfg, b0, t, d);
        }
        FedRan(cfg, b0, t, e);
      }
    }
    assert Closed(cfg, b0, RanSet(t));
  }

  /** In a terminal state, whoever injects a dead service has been refused. */
  lemma DeadRefused(cfg: Config, b0: Boot, t: Boot, f: Name, d: Name)
    requires Reached(cfg, b0, t) && Terminal(cfg, t) && f in t.phase
    requires d in cfg[f].inject && d in t.reg.unavailable && d !in t.reg.services
    ensures t.phase[f] == Refused
  {
    TerminalFedOut(cfg, t);
    hide Reached, Terminal, StatusOf, FedOut;
    ReachedKeys(cfg, b0, t);
    NothingLeft(cfg, t, f);
    RanAgrees(cfg, b0, t, f);
    if t.phase[f] == Waiting {
      LeftWaiting(cfg, b0, t, f);
    }
  }

  lemma TerminalFedOut(cfg: Config, t: Boot)
    requires Terminal(cfg, t)
    ensures FedOut(cfg, t)
  {
  }

  /** In a terminal state, whoever was turned away has been refused. */
  lemma TurnedAwayRefused(cfg: Config, b0: Boot, t: Boot, f: Name)
    requires Reached(cfg, b0, t) && Terminal(cfg, t) && Later(cfg, b0, t) && TurnedAway(cfg, b0, f)
    ensures f in t.phase && t.phase[f] == Refused
  {
    TerminalFedOut(cfg, t);
    hide Reached, Terminal, StatusOf, FedOut;
    assert FurtherOn(cfg, b0, t, f);
    if t.phase[f] == Waiting {
      LeftWaiting(cfg, b0, t, f);
    }
  }

  /** The doomed are refused in the end, in whatever order the steps came. */
  lemma TerminalDoomed(cfg: Config, b0: Boot, t: Boot)
    requires Steady(cfg, b0) && Reached(cfg, b0, t) && Terminal(cfg, t) && Later(cfg, b0, t)
    requires RanSet(t) == Startable(cfg, b0)
    ensures forall f :: f in Doomed(cfg, b0) ==> f in t.phase && t.phase[f] == Refused
  {
    var refused := set f | f in t.phase && t.phase[f] == Refused;
    hide Steady, Reached, Startable, Supplied, Forsaken, Terminal, Doomed, RanSet, StatusOf, TurnedAway;
    ReachedKeys(cfg, b0, t);
    forall f | f in b0.phase && b0.phase[f] == Refused
      ensures f in refused
    {
      assert FurtherOn(cfg, b0, t, f);
    }
    forall f | TurnedAway(cfg, b0, f)
      ensures f in refused
    {
      TurnedAwayRefused(cfg, b0, t, f);
    }
    forall f, d | f in b0.phase && f in cfg && d in cfg[f].inject
                  && !Supplied(cfg, b0, Startable(cfg, b0), d) && Forsaken(cfg, b0, refused, d)
      ensures f in refused
    {
      ServicesSupplied(cfg, b0, t, RanSet(t));
      ForsakenDead(cfg, b0, t, refused, d);
      DeadRefused(cfg, b0, t, f, d);
    }
    assert RefusalClosed(cfg, b0, refused);
    DoomedLeast(cfg, b0);
  }

  lemma ForsakenDead(cfg: Config, b0: Boot, t: Boot, refused: set<Name>, d: Name)
    requires Reached(cfg, b0, t) && Terminal(cfg, t) && RanSet(t) == Startable(cfg, b0)
    requires refused == set f | f in t.phase && t.phase[f] == Refused
    requires Forsaken(cfg, b0, refused, d) && d !in t.reg.services
    ensures d in t.reg.unavailable
  {
    hide Startable, WaitsExplained, PhasesExplained, Terminal, GivenBySome;
    if d !in b0.reg.unavailable {
      var g :| g in b0.phase && g in cfg && d in cfg[g].declares
               && ((g in Startable(cfg, b0) && !cfg[g].ok) || g in refused);
      NothingLeft(cfg, t, g);
      RanAgrees(cfg, b0, t, g);
      assert g in refused || g in RanSet(t);
      assert Fallen(t.phase[g]);
      assert DeclaredByFallen(cfg, t, d);
    }
  }

  // ---- the fate of every plugin ----

  ghost function Fate(cfg: Config, b0: Boot, e: Name): Phase
    requires e in cfg
  {
    if e in Startable(cfg, b0) then (if cfg[e].ok then Up else Crashed)
    else if e in Doomed(cfg, b0) then Refused
    else Waiting
  }

  ghost function Fates(cfg: Config, b0: Boot): map<Name, Phase> {
    map e | e in b0.phase && e in cfg :: Fate(cfg, b0, e)
  }

  /**
   Whoever has not begun yet and injects a lost service that somebody supplies later on is
   doomed anyway.
   */
  ghost predicate Undisputed(cfg: Config, b0: Boot) {
    forall f, d :: (&& f in b0.phase && b0.phase[f] == Fresh && f in cfg && d in cfg[f].inject
                    && Lost(b0, d) && Supplied(cfg, b0, Startable(cfg, b0), d)) ==> f in Doomed(cfg, b0)
  }

  /** Nobody who has not begun yet and can start injects a lost service. */
  ghost predicate Unhindered(cfg: Config, b0: Boot) {
    forall f, d :: (&& f in Startable(cfg, b0) && f in b0.phase && b0.phase[f] == Fresh
                    && f in cfg && d in cfg[f].inject) ==> !Lost(b0, d)
  }

  lemma TerminalFates(cfg: Config, b0: Boot, t: Boot)
    requires Steady(cfg, b0) && Reached(cfg, b0, t) && Terminal(cfg, t) && Tame(cfg, b0, t, Doomed(cfg, b0))
    ensures t.phase == Fates(cfg, b0)
  {
    TerminalFedOut(cfg, t);
    hide Steady, Reached, Terminal, Startable, Doomed, TurnedAwayIn, FedOut, Later, RefusalClosed, RanSet;
    ReachedKeys(cfg, b0, t);
    DoomedLeast(cfg, b0);
    StartableRan(cfg, b0, t, Doomed(cfg, b0));
    TerminalDoomed(cfg, b0, t);
    forall e | e in t.phase
      ensures t.phase[e] == Fate(cfg, b0, e)
    {
      TerminalFate(cfg, b0, t, e);
    }
  }

  lemma TerminalFate(cfg: Config, b0: Boot, t: Boot, e: Name)
    requires Reached(cfg, b0, t) && Terminal(cfg, t) && e in t.phase && e in cfg
    requires RanSet(t) == Startable(cfg, b0) && RefusedIn(t, Doomed(cfg, b0))
    requires e in Doomed(cfg, b0) ==> t.phase[e] == Refused
    ensures t.phase[e] == Fate(cfg, b0, e)
  {
    hide Reached, Terminal, Startable, Doomed;
    NothingLeft(cfg, t, e);
    RanAgrees(cfg, b0, t, e);
    assert e in RanSet(t) <==> Ran(t.phase[e]);
  }

  /** At the base itself, any enclosure holds what has been refused. */
  lemma StartTame(cfg: Config, b0: Boot, m: set<Name>)
    requires Steady(cfg, b0) && RefusalClosed(cfg, b0, m)
    ensures Reached(cfg, b0, b0) && Tame(cfg, b0, b0, m)
  {
    BaseRan(cfg, b0);
    hide Startable, Supplied, Forsaken, Reached, Unmixed, TurnedAway, RanSet;
  }

  lemma BaseRan(cfg: Config, b0: Boot)
    requires Steady(cfg, b0)
    ensures RanSet(b0) <= Startable(cfg, b0) && Later(cfg, b0, b0)
  {
    ReachedKeys(cfg, b0, b0);
    hide Steady, Startable, CanTry, TurnedAway;
    StartableLeast(cfg, b0);
    forall e | e in RanSet(b0)
      ensures e in Startable(cfg, b0)
    {
      assert Admitted(cfg, b0, Startable(cfg, b0), e);
    }
  }

  lemma EndFates(cfg: Config, b0: Boot, steps: seq<Step>)
    requires Steady(cfg, b0) && Undisputed(cfg, b0) && Complete(cfg, b0, steps)
    ensures Reached(cfg, b0, End(cfg, b0, steps)) && End(cfg, b0, steps).phase == Fates(cfg, b0)
  {
    hide Supplied, Startable, Doomed;
    assert Contained(cfg, b0, b0, Doomed(cfg, b0));
    hide Reached, Unmixed, Terminal, Contained, Tame, Fates, RefusalClosed, Undisputed;
    DoomedLeast(cfg, b0);
    StartTame(cfg, b0, Doomed(cfg, b0));
    TameRun(cfg, b0, b0, Doomed(cfg, b0), steps);
    TerminalFates(cfg, b0, End(cfg, b0, steps));
  }

  // ---- what every run keeps ----

  ghost predicate SameEnd(s: Boot, t: Boot) {
    s.phase == t.phase && s.reg.services == t.reg.services && s.reg.unavailable == t.reg.unavailable
  }

  /** The phases decide what is provided and what is given up. */
  lemma PhasesDecide(cfg: Config, b0: Boot, s: Boot, t: Boot)
    requires Reached(cfg, b0, s) && Reached(cfg, b0, t) && s.phase == t.phase
    ensures SameEnd(s, t)
  {
    hide WaitsExplained, PhasesExplained;
    forall n
      ensures GivenBySome(cfg, s, n) == GivenBySome(cfg, t, n)
      ensures DeclaredByFallen(cfg, s, n) == DeclaredByFallen(cfg, t, n)
    {
      forall e
        ensures Given(cfg, s, e, n) == Given(cfg, t, e, n)
      {
      }
    }
  }

  /** What every run from a base keeps. */
  lemma RunOnwards(cfg: Config, b0: Boot, steps: seq<Step>)
    requires Steady(cfg, b0) && IsRun(cfg, b0, steps)
    ensures Reached(cfg, b0, End(cfg, b0, steps)) && Later(cfg, b0, End(cfg, b0, steps))
    ensures RanSet(End(cfg, b0, steps)) <= Startable(cfg, b0)
  {
    hide Reached, RanSet, Startable, Later, Unmixed;
    BaseRan(cfg, b0);
    RunReached(cfg, b0, b0, steps);
    OnlyStartableRun(cfg, b0, b0, steps);
  }
}
