/**
 Plugins registered while booting. Such a plugin may ask for its services at any time, and then
 timing can matter: a service that has been given up may be provided before the plugin asks or
 after. This module says exactly when it does not matter.
 */
module PluginLate {
  import opened PluginRegistry
  import opened PluginStart
  import opened PluginFate

  // ---- a run that refuses ----

  /** Asking next, a plugin that injects a lost service is refused for good. */
  lemma EarlyRefusal(cfg: Config, b0: Boot, f: Name, d: Name) returns (steps: seq<Step>)
    requires Steady(cfg, b0) && f in b0.phase && b0.phase[f] == Fresh && d in cfg[f].inject && Lost(b0, d)
    ensures Complete(cfg, b0, steps) && End(cfg, b0, steps).phase.Keys == b0.phase.Keys
    ensures End(cfg, b0, steps).phase[f] == Refused
  {
    WaitsKept(cfg, b0, b0);
    ReachedKeys(cfg, b0, b0);
    hide IsRun, End, Terminal, WaitForAll, MarkAll, Steady;
    var s1 := Do(cfg, b0, Begin(f));
    WaitForAllEffect(b0.reg, f, cfg[f].inject);
    assert StatusOf(s1.reg, Wait(f, d)) == Done(Rejected);
    var s2 := Do(cfg, s1, Refuse(f));
    steps := CanComplete(cfg, s2);
    RefusedStays(cfg, s2, f, steps);
    Prepend(cfg, s1, Refuse(f), steps);
    steps := [Refuse(f)] + steps;
    Prepend(cfg, b0, Begin(f), steps);
    steps := [Begin(f)] + steps;
  }

  lemma {:induction false} RefusedStays(cfg: Config, b: Boot, f: Name, steps: seq<Step>)
    requires IsRun(cfg, b, steps) && f in b.phase && b.phase[f] == Refused
    ensures End(cfg, b, steps).phase.Keys == b.phase.Keys && End(cfg, b, steps).phase[f] == Refused
    decreases |steps|
  {
    hide StatusOf, WaitForAll, MarkAll, Provide;
    if steps != [] {
      RefusedStays(cfg, Do(cfg, b, steps[0]), f, steps[1..]);
    }
  }

  // ---- a run in which nobody asks too early ----

  /** Lets everybody move, but ask for services only when they are there. */
  lemma {:induction false} FeedAll(cfg: Config, b0: Boot, b: Boot, m: set<Name>) returns (steps: seq<Step>)
    requires Unmixed(cfg, b0) && Reached(cfg, b0, b) && Encloses(cfg, b0, m) && Tame(cfg, b0, b, m)
    ensures IsRun(cfg, b, steps) && FedOut(cfg, End(cfg, b, steps))
    ensures Reached(cfg, b0, End(cfg, b, steps)) && Tame(cfg, b0, End(cfg, b, steps), m)
    decreases Budget(cfg, b.phase)
  {
    hide Unmixed, Reached, Encloses, Tame, CanStep, Do, Budget;
    EmptyRun(cfg, b);
    steps := [];
    if step :| FedStep(cfg, b, step) {
      StepSpends(cfg, b, step);
      BudgetNonNegative(cfg, b.phase);
      FedMayBegin(cfg, b0, b, m, step);
      TameStep(cfg, b0, b, m, step);
      steps := FeedAll(cfg, b0, Do(cfg, b, step), m);
      Prepend(cfg, b, step, steps);
      steps := [step] + steps;
    }
  }

  lemma FedMayBegin(cfg: Config, b0: Boot, b: Boot, m: set<Name>, step: Step)
    requires FedStep(cfg, b, step)
    ensures step.Begin? ==> MayBegin(cfg, b0, b, m, step.e)
  {
  }

  lemma FedContained(cfg: Config, b0: Boot, b: Boot, m: set<Name>)
    requires Reached(cfg, b0, b) && FedOut(cfg, b) && RanSet(b) == Startable(cfg, b0)
    ensures Contained(cfg, b0, b, m)
  {
    hide Reached, FedOut, Startable, Supplied, RanSet;
    forall d | Supplied(cfg, b0, Startable(cfg, b0), d)
      ensures d in b.reg.services
    {
      SuppliedProvided(cfg, b0, b, d);
    }
  }

  /** Some complete run gives every plugin its fate. */
  lemma FatesReachable(cfg: Config, b0: Boot) returns (steps: seq<Step>)
    requires Steady(cfg, b0)
    ensures Complete(cfg, b0, steps) && End(cfg, b0, steps).phase == Fates(cfg, b0)
  {
    hide Reached, Unmixed, Startable, Doomed, Terminal, Tame, RefusalClosed, Fates;
    hide IsRun, End, RanSet, FedOut, Contained;
    var m := Doomed(cfg, b0);
    DoomedLeast(cfg, b0);
    StartTame(cfg, b0, m);
    var fed := FeedAll(cfg, b0, b0, m);
    var mid := End(cfg, b0, fed);
    StartableRan(cfg, b0, mid, m);
    FedContained(cfg, b0, mid, m);
    var rest := CanComplete(cfg, mid);
    TameRun(cfg, b0, mid, m, rest);
    TerminalFates(cfg, b0, End(cfg, mid, rest));
    RunThen(cfg, b0, fed, rest);
    steps := fed + rest;
  }

  // ---- main results ----

  /** Any two complete runs end with the same phases, services and unavailable names. */
  ghost predicate Determined(cfg: Config, b0: Boot) {
    forall one, two :: Complete(cfg, b0, one) && Complete(cfg, b0, two) ==>
                         SameEnd(End(cfg, b0, one), End(cfg, b0, two))
  }

  /**
   Timing does not matter if and only if every plugin that has not begun yet and injects a lost
   service somebody supplies later on is doomed for another reason.
   */
  lemma DeterminedExactly(cfg: Config, b0: Boot)
    requires Steady(cfg, b0)
    ensures Determined(cfg, b0) <==> Undisputed(cfg, b0)
  {
    ReachedKeys(cfg, b0, b0);
    hide Steady, Reached, Startable, Doomed, Supplied, Complete, End, Fates;
    if Undisputed(cfg, b0) {
      forall one, two | Complete(cfg, b0, one) && Complete(cfg, b0, two)
        ensures SameEnd(End(cfg, b0, one), End(cfg, b0, two))
      {
        EndFates(cfg, b0, one);
        EndFates(cfg, b0, two);
        PhasesDecide(cfg, b0, End(cfg, b0, one), End(cfg, b0, two));
      }
    } else {
      var f, d :| && f in b0.phase && b0.phase[f] == Fresh && f in cfg && d in cfg[f].inject
                  && Lost(b0, d) && Supplied(cfg, b0, Startable(cfg, b0), d) && f !in Doomed(cfg, b0);
      var one := EarlyRefusal(cfg, b0, f, d);
      var two := FatesReachable(cfg, b0);
      NotRefused(cfg, b0, f);
      assert !SameEnd(End(cfg, b0, one), End(cfg, b0, two));
    }
  }

  lemma NotRefused(cfg: Config, b0: Boot, f: Name)
    requires f in b0.phase && f in cfg && f !in Doomed(cfg, b0)
    ensures f in Fates(cfg, b0) && Fates(cfg, b0)[f] != Refused
  {
    hide Startable, Doomed;
  }

  /** When it does not matter, every complete run gives every plugin the fate computed beforehand. */
  lemma FatesExactly(cfg: Config, b0: Boot)
    requires Steady(cfg, b0)
    ensures (forall steps :: Complete(cfg, b0, steps) ==> End(cfg, b0, steps).phase == Fates(cfg, b0)) <==>
            Undisputed(cfg, b0)
  {
    hide Steady, End, Fates, Undisputed, Reached, IsRun, Terminal, Startable, Doomed, RanSet, Later;
    DeterminedExactly(cfg, b0);
    if Undisputed(cfg, b0) {
      forall steps | Complete(cfg, b0, steps)
        ensures End(cfg, b0, steps).phase == Fates(cfg, b0)
      {
        EndFates(cfg, b0, steps);
      }
    } else {
      var one, two :| && Complete(cfg, b0, one) && Complete(cfg, b0, two)
                      && !SameEnd(End(cfg, b0, one), End(cfg, b0, two));
      if End(cfg, b0, one).phase == Fates(cfg, b0) && End(cfg, b0, two).phase == Fates(cfg, b0) {
        RunOnwards(cfg, b0, one);
        RunOnwards(cfg, b0, two);
        PhasesDecide(cfg, b0, End(cfg, b0, one), End(cfg, b0, two));
      }
    }
  }

  /**
   Every complete run starts exactly the least set closed under starting if and only if nobody
   in that set who has not begun yet injects a lost service.
   */
  lemma StartsExactly(cfg: Config, b0: Boot)
    requires Steady(cfg, b0)
    ensures (forall steps :: Complete(cfg, b0, steps) ==> RanSet(End(cfg, b0, steps)) == Startable(cfg, b0)) <==>
            Unhindered(cfg, b0)
  {
    ReachedKeys(cfg, b0, b0);
    if Unhindered(cfg, b0) {
      forall steps | Complete(cfg, b0, steps)
        ensures RanSet(End(cfg, b0, steps)) == Startable(cfg, b0)
      {
        hide Reached, Unhindered, Startable, RanSet;
        EveryStartableRuns(cfg, b0, steps);
      }
    } else {
      hide Steady, Complete, End;
      var f, d :| && f in Startable(cfg, b0) && f in b0.phase && b0.phase[f] == Fresh
                  && f in cfg && d in cfg[f].inject && Lost(b0, d);
      var steps := EarlyRefusal(cfg, b0, f, d);
      assert f !in RanSet(End(cfg, b0, steps));
    }
  }

  lemma EveryStartableRuns(cfg: Config, b0: Boot, steps: seq<Step>)
    requires Steady(cfg, b0) && Unhindered(cfg, b0) && Complete(cfg, b0, steps)
    ensures RanSet(End(cfg, b0, steps)) == Startable(cfg, b0)
  {
    var rest := b0.phase.Keys - Startable(cfg, b0);
    hide Reached, Unmixed, Startable, Supplied;
    assert Contained(cfg, b0, b0, rest);
    TerminalFedOut(cfg, End(cfg, b0, steps));
    hide Terminal, Contained, Tame, RefusalClosed, RanSet, FedOut;
    UnstartableClosed(cfg, b0);
    StartTame(cfg, b0, rest);
    TameRun(cfg, b0, b0, rest, steps);
    StartableRan(cfg, b0, End(cfg, b0, steps), rest);
  }

  /** The first condition is the stronger one. */
  lemma UndisputedUnhindered(cfg: Config, b0: Boot)
    requires Steady(cfg, b0) && Undisputed(cfg, b0)
    ensures Unhindered(cfg, b0)
  {
    hide Steady, Startable, Doomed, Supplied, RefusalClosed;
    DoomedLeast(cfg, b0);
    forall f | f in Startable(cfg, b0)
      ensures f in cfg && forall d :: d in cfg[f].inject ==> Supplied(cfg, b0, Startable(cfg, b0), d)
    {
      StartableSupplied(cfg, b0, f);
    }
  }
}
