/**
 The pass of `start`. It lets every plugin ask for its services in registration order before
 anything that waits can go on; only plugins that inject nothing already run during it, up to
 the first thing they await. After the pass the outcome is fixed, whatever the timing.
 */
module PluginPass {
  import opened PluginRegistry
  import opened PluginStart
  import opened PluginFate

  // ---- one outcome once everybody has asked ----

  ghost predicate AllBegun(b: Boot) {
    forall e :: e in b.phase ==> b.phase[e] != Fresh
  }

  /** Waits that were pending in `b0` have the answer the services of `b` give; the others keep theirs. */
  ghost predicate AnswersSince(b0: Boot, b: Boot) {
    forall w :: StatusOf(b.reg, w) ==
                if StatusOf(b0.reg, w) == Pending then Verdict(b.reg, w.dep) else StatusOf(b0.reg, w)
  }

  lemma AnswersStep(cfg: Config, b0: Boot, b: Boot, step: Step)
    requires Unmixed(cfg, b0) && Reached(cfg, b0, b) && NoLostWait(b0.reg) && AnswersSince(b0, b)
    requires CanStep(cfg, b, step) && !step.Begin?
    ensures AnswersSince(b0, Do(cfg, b, step))
  {
    WaitsKept(cfg, b0, b);
    var b' := Do(cfg, b, step);
    MarkAllEffect(b.reg, cfg[step.e].declares);
    hide Unmixed, Reached, NoLostWait;
    forall w
      ensures StatusOf(b'.reg, w) ==
              if StatusOf(b0.reg, w) == Pending then Verdict(b'.reg, w.dep) else StatusOf(b0.reg, w)
    {
      WaitStep(cfg, b, step, w);
      hide StatusOf, MarkAll;
    }
  }

  lemma {:induction false} AnswersRun(cfg: Config, b0: Boot, b: Boot, steps: seq<Step>)
    requires Unmixed(cfg, b0) && Reached(cfg, b0, b) && NoLostWait(b0.reg) && AnswersSince(b0, b)
    requires AllBegun(b) && IsRun(cfg, b, steps)
    ensures AnswersSince(b0, End(cfg, b, steps)) && NoLostWait(End(cfg, b, steps).reg)
    decreases |steps|
  {
    WaitsKept(cfg, b0, b);
    hide Unmixed, Reached, NoLostWait, AnswersSince, AllBegun, CanStep, Do;
    if steps != [] {
      AnswersStep(cfg, b0, b, steps[0]);
      StepReached(cfg, b0, b, steps[0]);
      AnswersRun(cfg, b0, Do(cfg, b, steps[0]), steps[1..]);
    }
  }

  /** A registry is its services, its unavailable names and the status of every wait. */
  lemma SameRegistry(r: Registry, q: Registry)
    requires NoLostWait(r) && NoLostWait(q) && r.services == q.services && r.unavailable == q.unavailable
    requires forall w :: StatusOf(r, w) == StatusOf(q, w)
    ensures r == q
  {
    forall w
      ensures w in r.waiters <==> w in q.waiters
      ensures w in r.settled <==> w in q.settled
      ensures w in r.settled && w in q.settled ==> r.settled[w] == q.settled[w]
    {
      assert StatusOf(r, w) == StatusOf(q, w);
    }
    assert r.settled == q.settled;
  }

  /**
   Once everybody has asked, timing does not matter at all: every complete continuation leaves
   the same state, waits included, and every plugin has the fate computed beforehand.
   */
  lemma OneOutcome(cfg: Config, b: Boot, one: seq<Step>, two: seq<Step>)
    requires Steady(cfg, b) && AllBegun(b) && Complete(cfg, b, one) && Complete(cfg, b, two)
    ensures End(cfg, b, one) == End(cfg, b, two)
    ensures End(cfg, b, one).phase == Fates(cfg, b)
  {
    WaitsKept(cfg, b, b);
    hide Reached, Unmixed, NoLostWait, AllBegun, Undisputed, Fates, Terminal;
    EndFates(cfg, b, one);
    EndFates(cfg, b, two);
    PhasesDecide(cfg, b, End(cfg, b, one), End(cfg, b, two));
    AnswersRun(cfg, b, b, one);
    AnswersRun(cfg, b, b, two);
    hide IsRun, End, StatusOf;
    SameRegistry(End(cfg, b, one).reg, End(cfg, b, two).reg);
  }

  // ---- the pass ----

  /**
   What `startEntry` does before it first gives way: a plugin that injects something only asks;
   one that injects nothing runs up to its first await, having provided what it provides until
   then, unless it throws before.
   */
  ghost predicate OwnPart(cfg: Config, e: Name, own: seq<Step>) {
    && e in cfg && own != [] && own[0] == Begin(e)
    && (forall i :: 0 <= i < |own| ==> own[i].e == e && (own[i].Finish? ==> !cfg[e].ok))
    && (if cfg[e].inject == [] then |own| >= 2 else |own| == 1)
  }

  /** The pass over the plugins in this order leads from `b` to `b'`. */
  ghost predicate Pass(cfg: Config, b: Boot, order: seq<Name>, b': Boot)
    decreases |order|
  {
    if order == [] then b' == b
    else exists own: seq<Step> :: PassStep(cfg, b, order[0], own) && Pass(cfg, End(cfg, b, own), order[1..], b')
  }

  ghost predicate PassStep(cfg: Config, b: Boot, e: Name, own: seq<Step>) {
    OwnPart(cfg, e, own) && IsRun(cfg, b, own)
  }

  /** The pass is a run, every plugin in the order has asked in it, and nothing went backwards. */
  lemma {:induction false} PassRun(cfg: Config, b: Boot, order: seq<Name>, b': Boot) returns (steps: seq<Step>)
    requires Steady(cfg, b) && Pass(cfg, b, order, b')
    ensures IsRun(cfg, b, steps) && End(cfg, b, steps) == b'
    ensures Steady(cfg, b') && Reached(cfg, b, b') && Later(cfg, b, b')
    ensures forall e :: e in order ==> e in b'.phase && b'.phase[e] != Fresh
    decreases |order|
  {
    hide Unmixed, Reached, IsRun, End, Later, OwnPart, CanStep, Do, RanSet, Startable;
    EmptyRun(cfg, b);
    steps := [];
    if order != [] {
      var own :| PassStep(cfg, b, order[0], own) && Pass(cfg, End(cfg, b, own), order[1..], b');
      var mid := End(cfg, b, own);
      RunOnwards(cfg, b, own);
      ReachedSteady(cfg, b, mid);
      var rest := PassRun(cfg, mid, order[1..], b');
      RunThen(cfg, b, own, rest);
      steps := own + rest;
      HasBegun(cfg, b, order[0], own);
      StaysBegun(cfg, mid, b', order[0]);
    } else {
      RunOnwards(cfg, b, []);
    }
    RunOnwards(cfg, b, steps);
  }

  lemma HasBegun(cfg: Config, b: Boot, e: Name, own: seq<Step>)
    requires Steady(cfg, b) && PassStep(cfg, b, e, own)
    ensures e in End(cfg, b, own).phase && End(cfg, b, own).phase[e] != Fresh
  {
    hide Unmixed, Reached, Later, StatusOf, WaitForAll, MarkAll, Provide, RanSet, Startable;
    var b1 := Do(cfg, b, Begin(e));
    StepReached(cfg, b, b, Begin(e));
    ReachedSteady(cfg, b, b1);
    RunOnwards(cfg, b1, own[1..]);
    StaysBegun(cfg, b1, End(cfg, b, own), e);
  }

  lemma StaysBegun(cfg: Config, b: Boot, b': Boot, e: Name)
    requires Later(cfg, b, b') && e in b.phase && b.phase[e] != Fresh
    ensures e in b'.phase && b'.phase[e] != Fresh
  {
    assert FurtherOn(cfg, b, b', e);
  }

  /**
   The pass over all plugins fixes the outcome of the start: every complete continuation leaves
   one and the same state, and gives every plugin its fate.
   */
  lemma PassDecides(cfg: Config, b0: Boot, order: seq<Name>, b1: Boot, one: seq<Step>, two: seq<Step>)
    requires Steady(cfg, b0) && Pass(cfg, b0, order, b1) && forall e :: e in b0.phase ==> e in order
    requires Complete(cfg, b1, one) && Complete(cfg, b1, two)
    ensures End(cfg, b1, one) == End(cfg, b1, two)
    ensures End(cfg, b1, one).phase == Fates(cfg, b1)
  {
    PassAllBegun(cfg, b0, order, b1);
    hide Steady, Pass, Complete, AllBegun, End, Fates;
    OneOutcome(cfg, b1, one, two);
  }

  lemma PassAllBegun(cfg: Config, b0: Boot, order: seq<Name>, b1: Boot)
    requires Steady(cfg, b0) && Pass(cfg, b0, order, b1) && forall e :: e in b0.phase ==> e in order
    ensures Steady(cfg, b1) && AllBegun(b1) && b1.phase.Keys == b0.phase.Keys
  {
    hide Steady, Pass, IsRun, End;
    var _ := PassRun(cfg, b0, order, b1);
    ReachedKeys(cfg, b0, b1);
  }

  // ---- who is refused ----

  /** A plugin that asks is turned away exactly if one of its services is given up and not there. */
  lemma AskedTooEarly(cfg: Config, b: Boot, f: Name)
    requires NoLostWait(b.reg) && CanStep(cfg, b, Begin(f))
    ensures TurnedAway(cfg, Do(cfg, b, Begin(f)), f) <==>
            exists d :: d in cfg[f].inject && d in b.reg.unavailable && d !in b.reg.services
  {
    hide WaitForAll;
    WaitForAllEffect(b.reg, f, cfg[f].inject);
    forall d | d in cfg[f].inject
      ensures StatusOf(Do(cfg, b, Begin(f)).reg, Wait(f, d)) == Verdict(b.reg, d)
    {
    }
    if d :| d in cfg[f].inject && d in b.reg.unavailable && d !in b.reg.services {
      assert StatusOf(Do(cfg, b, Begin(f)).reg, Wait(f, d)) == Done(Rejected);
    }
  }

  /** Whoever is turned away is refused in the end. */
  lemma TurnedAwayFate(cfg: Config, b: Boot, f: Name)
    requires Steady(cfg, b) && (TurnedAway(cfg, b, f) || (f in b.phase && f in cfg && b.phase[f] == Refused))
    ensures f in Fates(cfg, b) && Fates(cfg, b)[f] == Refused
  {
    hide Steady, Startable, Doomed, Supplied, Forsaken;
    DoomedLeast(cfg, b);
  }

  /** What the pass provides, only plugins that inject nothing provide. */
  ghost predicate EarlyGiven(cfg: Config, b0: Boot, d: Name) {
    exists g :: g in b0.phase && g in cfg && cfg[g].inject == [] && d in cfg[g].gives
  }

  /** In the middle of the pass: only plugins that inject nothing have run. */
  ghost predicate MidPass(cfg: Config, b: Boot) {
    forall e :: e in b.phase && e in cfg && Ran(b.phase[e]) ==> cfg[e].inject == []
  }

  lemma {:induction false} OwnKeeps(cfg: Config, b: Boot, e: Name, own: seq<Step>)
    requires IsRun(cfg, b, own) && MidPass(cfg, b) && e in cfg && cfg[e].inject == []
    requires forall i :: 0 <= i < |own| ==> own[i].e == e
    ensures MidPass(cfg, End(cfg, b, own))
    decreases |own|
  {
    hide StatusOf, WaitForAll, MarkAll, Provide;
    if own != [] {
      OwnKeeps(cfg, Do(cfg, b, own[0]), e, own[1..]);
    }
  }

  lemma MidPassStep(cfg: Config, b: Boot, e: Name, own: seq<Step>)
    requires PassStep(cfg, b, e, own) && MidPass(cfg, b)
    ensures MidPass(cfg, End(cfg, b, own))
  {
    if cfg[e].inject == [] {
      OwnKeeps(cfg, b, e, own);
    } else {
      EmptyRun(cfg, Do(cfg, b, Begin(e)));
      assert own[1..] == [];
      hide IsRun, End, StatusOf, WaitForAll, MarkAll, Provide;
    }
  }

  /** A plugin that injects such a service is turned away in every order. */
  lemma {:induction false} AlwaysTooEarly(cfg: Config, b0: Boot, b: Boot, order: seq<Name>, b1: Boot, f: Name, d: Name)
    requires Sane(cfg, b0) && Reached(cfg, b0, b) && MidPass(cfg, b) && Pass(cfg, b, order, b1)
    requires Lost(b0, d) && !EarlyGiven(cfg, b0, d)
    requires f in order && f in cfg && d in cfg[f].inject
    ensures Steady(cfg, b1) && Later(cfg, b, b1)
    ensures TurnedAway(cfg, b1, f) || (f in b1.phase && b1.phase[f] == Refused)
    decreases |order|
  {
    SaneSteady(cfg, b0);
    ReachedSteady(cfg, b0, b);
    WaitsKept(cfg, b0, b);
    hide Sane, Unmixed, Reached, MidPass, IsRun, End, Later, OwnPart, CanStep, Do;
    hide EarlyGiven, Lost, NoLostWait, RanSet, Startable;
    var own :| PassStep(cfg, b, order[0], own) && Pass(cfg, End(cfg, b, own), order[1..], b1);
    var mid := End(cfg, b, own);
    RunReached(cfg, b0, b, own);
    ReachedSteady(cfg, b0, mid);
    RunOnwards(cfg, b, own);
    var _ := PassRun(cfg, mid, order[1..], b1);
    LaterOn(cfg, b, mid, b1);
    if order[0] == f {
      AskedTooEarly(cfg, b, f);
      StepReached(cfg, b, b, Begin(f));
      ReachedSteady(cfg, b, Do(cfg, b, Begin(f)));
      RunOnwards(cfg, Do(cfg, b, Begin(f)), own[1..]);
      LaterOn(cfg, Do(cfg, b, Begin(f)), mid, b1);
      KeptAway(cfg, Do(cfg, b, Begin(f)), b1, f);
    } else {
      MidPassStep(cfg, b, order[0], own);
      AlwaysTooEarly(cfg, b0, mid, order[1..], b1, f, d);
    }
  }

  lemma KeptAway(cfg: Config, b: Boot, b': Boot, f: Name)
    requires Later(cfg, b, b') && TurnedAway(cfg, b, f)
    ensures TurnedAway(cfg, b', f) || (f in b'.phase && b'.phase[f] == Refused)
  {
    assert f in b'.phase && FurtherOn(cfg, b, b', f);
  }

  // ---- the most favourable order ----

  lemma {:induction false} GiveAll(cfg: Config, b: Boot, e: Name, left: set<Name>) returns (steps: seq<Step>)
    requires e in b.phase && e in cfg && b.phase[e] == Applying(left)
    ensures IsRun(cfg, b, steps) && forall i :: 0 <= i < |steps| ==> steps[i].Give? && steps[i].e == e
    ensures
      var b' := End(cfg, b, steps);
      && b'.phase == b.phase[e := Applying({})]
      && b'.reg.services == b.reg.services + left && b'.reg.unavailable <= b.reg.unavailable
    decreases left
  {
    EmptyRun(cfg, b);
    hide IsRun, End;
    if n :| n in left {
      steps := GiveAll(cfg, Do(cfg, b, Give(e, n)), e, left - {n});
      Prepend(cfg, b, Give(e, n), steps);
      steps := [Give(e, n)] + steps;
      assert b.phase[e := Applying(left - {n})][e := Applying({})] == b.phase[e := Applying({})];
    } else {
      steps := [];
      assert left == {};
      assert b.phase[e := Applying({})] == b.phase;
    }
  }

  /** Everything a plugin that injects nothing provides, in the pass; anybody else only asks. */
  lemma EagerPart(cfg: Config, b: Boot, e: Name) returns (own: seq<Step>)
    requires e in b.phase && e in cfg && b.phase[e] == Fresh
    ensures PassStep(cfg, b, e, own) && forall i :: 0 <= i < |own| ==> !own[i].Finish? && !own[i].Refuse?
    ensures
      var b' := End(cfg, b, own);
      && b'.phase == b.phase[e := if cfg[e].inject == [] then Applying({}) else Waiting]
      && b'.reg.services == b.reg.services + (if cfg[e].inject == [] then cfg[e].gives else {})
      && b'.reg.unavailable <= b.reg.unavailable
  {
    var s1 := Do(cfg, b, Begin(e));
    AskingKeeps(b.reg, e, cfg[e].inject);
    if cfg[e].inject == [] {
      var s2 := Do(cfg, s1, Proceed(e));
      own := GiveAll(cfg, s2, e, cfg[e].gives);
      hide IsRun, End, WaitForAll;
      Prepend(cfg, s1, Proceed(e), own);
      own := [Proceed(e)] + own;
      Prepend(cfg, b, Begin(e), own);
      own := [Begin(e)] + own;
      assert s1.phase[e := Applying(cfg[e].gives)][e := Applying({})] == b.phase[e := Applying({})];
    } else {
      EmptyRun(cfg, s1);
      Prepend(cfg, b, Begin(e), []);
      own := [Begin(e)] + [];
    }
  }

  lemma {:induction false} AskingKeeps(r: Registry, owner: Name, deps: seq<Name>)
    ensures var q := WaitForAll(r, owner, deps); q.services == r.services && q.unavailable == r.unavailable
  {
    if deps != [] {
      AskingKeeps(r, owner, deps[..|deps| - 1]);
    }
  }

  ghost predicate Reachable(cfg: Config, b: Boot, f: Name) {
    f in cfg && forall d :: d in cfg[f].inject && d in b.reg.unavailable ==> d in b.reg.services
  }

  /** Steps of others that neither finish nor refuse turn nobody away. */
  lemma {:induction false} OthersTurnNobodyAway(cfg: Config, b: Boot, own: seq<Step>, f: Name)
    requires NoLostWait(b.reg) && b.phase.Keys <= cfg.Keys && IsRun(cfg, b, own)
    requires forall i :: 0 <= i < |own| ==> own[i].e != f && !own[i].Finish? && !own[i].Refuse?
    requires f in b.phase && b.phase[f] == Waiting && !TurnedAway(cfg, b, f)
    ensures !TurnedAway(cfg, End(cfg, b, own), f) && NoLostWait(End(cfg, b, own).reg)
    ensures f in End(cfg, b, own).phase && End(cfg, b, own).phase[f] == Waiting
    decreases |own|
  {
    if own != [] {
      var b' := Do(cfg, b, own[0]);
      forall d | d in cfg[f].inject
        ensures StatusOf(b'.reg, Wait(f, d)) != Done(Rejected)
      {
        WaitStep(cfg, b, own[0], Wait(f, d));
      }
      WaitForAllEffect(b.reg, own[0].e, cfg[own[0].e].inject);
      if own[0].Give? {
        OperationsLoseNoWait(b.reg, own[0].name, Wait(f, f));
      }
      hide StatusOf, NoLostWait, WaitForAll, MarkAll, Provide;
      OthersTurnNobodyAway(cfg, b', own[1..], f);
    }
  }

  /** Where a favourable pass leads: it gives up nothing, keeps everybody served, and serves everybody who can be. */
  ghost predicate Favourable(cfg: Config, b: Boot, order: seq<Name>, b': Boot) {
    && b'.phase.Keys == b.phase.Keys
    && b.reg.services <= b'.reg.services && b'.reg.unavailable <= b.reg.unavailable
    && (forall e :: e in b.phase && e !in order ==> b'.phase[e] == b.phase[e])
    && (forall e, n :: e in order && e in cfg && cfg[e].inject == [] && n in cfg[e].gives ==> n in b'.reg.services)
    && (forall f :: f in b.phase && f !in order && b.phase[f] == Waiting && !TurnedAway(cfg, b, f) ==>
                      !TurnedAway(cfg, b', f))
    && (forall f :: f in order && Reachable(cfg, b, f) ==>
                      f in b'.phase && b'.phase[f] != Refused && !TurnedAway(cfg, b', f))
  }

  ghost predicate Distinct(order: seq<Name>) {
    forall i, j :: 0 <= i < j < |order| ==> order[i] != order[j]
  }

  /** One plugin's part of a favourable pass. */
  lemma EagerStep(cfg: Config, b: Boot, e: Name) returns (own: seq<Step>)
    requires Steady(cfg, b) && e in b.phase && e in cfg && b.phase[e] == Fresh
    ensures PassStep(cfg, b, e, own) && Steady(cfg, End(cfg, b, own)) && Favourable(cfg, b, [e], End(cfg, b, own))
  {
    own := EagerPart(cfg, b, e);
    var b' := End(cfg, b, own);
    WaitsKept(cfg, b, b);
    ReachedKeys(cfg, b, b);
    RunOnwards(cfg, b, own);
    ReachedSteady(cfg, b, b');
    AskedTooEarly(cfg, b, e);
    hide Reached, Unmixed, IsRun, End, NoLostWait, StatusOf, WaitForAll, Startable, RanSet, Later, Do, CanStep;
    forall f | f in b.phase && f != e && b.phase[f] == Waiting && !TurnedAway(cfg, b, f)
      ensures !TurnedAway(cfg, b', f)
    {
      OthersTurnNobodyAway(cfg, b, own, f);
    }
    if cfg[e].inject != [] {
      assert own[1..] == [];
      EmptyRun(cfg, Do(cfg, b, Begin(e)));
    }
  }

  lemma {:induction false} EagerPass(cfg: Config, b: Boot, order: seq<Name>) returns (b': Boot)
    requires Steady(cfg, b) && Distinct(order)
    requires forall e :: e in order ==> e in b.phase && e in cfg && b.phase[e] == Fresh
    ensures Pass(cfg, b, order, b') && Steady(cfg, b') && Favourable(cfg, b, order, b')
    decreases |order|
  {
    if order == [] {
      b' := b;
    } else {
      var own := EagerStep(cfg, b, order[0]);
      var mid := End(cfg, b, own);
      hide Steady, PassStep, TurnedAway, Reachable;
      b' := EagerPass(cfg, mid, order[1..]);
      FavourableThen(cfg, b, order, mid, b');
    }
  }

  lemma FavourableThen(cfg: Config, b: Boot, order: seq<Name>, mid: Boot, b': Boot)
    requires order != [] && order[0] !in order[1..]
    requires Favourable(cfg, b, [order[0]], mid) && Favourable(cfg, mid, order[1..], b')
    requires forall e :: e in order ==> e in b.phase && e in cfg && b.phase[e] == Fresh
    requires mid.phase.Keys == b.phase.Keys
    ensures Favourable(cfg, b, order, b')
  {
    assert order == [order[0]] + order[1..];
    hide TurnedAway;
    forall f | f in order && Reachable(cfg, b, f)
      ensures f in b'.phase && b'.phase[f] != Refused && !TurnedAway(cfg, b', f)
    {
      if f == order[0] {
        FirstServed(cfg, mid, order[1..], b', f);
      } else {
        assert Reachable(cfg, mid, f);
      }
    }
  }

  lemma FirstServed(cfg: Config, mid: Boot, rest: seq<Name>, b': Boot, f: Name)
    requires Favourable(cfg, mid, rest, b') && f !in rest && f in mid.phase
    requires mid.phase[f] != Refused && !TurnedAway(cfg, mid, f)
    ensures f in b'.phase && b'.phase[f] != Refused && !TurnedAway(cfg, b', f)
  {
    if mid.phase[f] != Waiting {
      assert b'.phase[f] == mid.phase[f];
    }
  }

  lemma {:induction false} PassThen(cfg: Config, b: Boot, one: seq<Name>, mid: Boot, two: seq<Name>, b': Boot)
    requires Pass(cfg, b, one, mid) && Pass(cfg, mid, two, b')
    ensures Pass(cfg, b, one + two, b')
    decreases |one|
  {
    hide OwnPart, IsRun, End;
    if one == [] {
      assert one + two == two;
    } else {
      var own :| PassStep(cfg, b, one[0], own) && Pass(cfg, End(cfg, b, own), one[1..], mid);
      PassThen(cfg, End(cfg, b, own), one[1..], mid, two, b');
      assert (one + two)[0] == one[0] && (one + two)[1..] == one[1..] + two;
    }
  }

  lemma {:induction false} Listing(names: set<Name>) returns (order: seq<Name>)
    ensures Distinct(order) && forall n :: n in order <==> n in names
  {
    order := [];
    if n :| n in names {
      var rest := Listing(names - {n});
      order := [n] + rest;
      assert forall i :: 0 <= i < |rest| ==> rest[i] in rest;
    }
  }

  /** The pass over all plugins in some order, ending in `b1`. */
  ghost predicate FullPass(cfg: Config, b0: Boot, order: seq<Name>, b1: Boot) {
    Pass(cfg, b0, order, b1) && Distinct(order) && forall e :: e in order <==> e in b0.phase
  }

  /** Turned away in the pass. */
  ghost predicate TooEarly(cfg: Config, b1: Boot, f: Name) {
    TurnedAway(cfg, b1, f) || (f in b1.phase && b1.phase[f] == Refused)
  }

  lemma DistinctThen(one: seq<Name>, two: seq<Name>)
    requires Distinct(one) && Distinct(two) && forall n :: n in one ==> n !in two
    ensures Distinct(one + two)
  {
    forall i, j | 0 <= i < j < |one + two|
      ensures (one + two)[i] != (one + two)[j]
    {
      if i < |one| <= j {
        assert (one + two)[i] in one && (one + two)[j] in two;
      }
    }
  }

  /** After the early plugins have provided, the services of `f` are there or may still come. */
  lemma ServedByEarly(cfg: Config, b0: Boot, one: seq<Name>, mid: Boot, f: Name)
    requires Favourable(cfg, b0, one, mid) && f in cfg
    requires forall g :: g in b0.phase && g in cfg && cfg[g].inject == [] ==> g in one
    requires forall d :: d in cfg[f].inject && Lost(b0, d) ==> EarlyGiven(cfg, b0, d)
    ensures Reachable(cfg, mid, f)
  {
    hide TurnedAway;
    forall d | d in cfg[f].inject && d in mid.reg.unavailable
      ensures d in mid.reg.services
    {
      if d !in b0.reg.services {
        var g :| g in b0.phase && g in cfg && cfg[g].inject == [] && d in cfg[g].gives;
        assert g in one;
      }
    }
  }

  lemma StillFresh(cfg: Config, b0: Boot, one: seq<Name>, mid: Boot, e: Name)
    requires Favourable(cfg, b0, one, mid) && e in b0.phase && e !in one
    ensures e in mid.phase && mid.phase[e] == b0.phase[e]
  {
  }

  lemma Served(cfg: Config, b: Boot, order: seq<Name>, b': Boot, f: Name)
    requires Favourable(cfg, b, order, b') && f in order && Reachable(cfg, b, f)
    ensures f in b'.phase && b'.phase[f] != Refused && !TurnedAway(cfg, b', f)
  {
  }

  lemma SaneFresh(cfg: Config, b0: Boot)
    requires Sane(cfg, b0)
    ensures Steady(cfg, b0) && forall e :: e in b0.phase ==> e in cfg && b0.phase[e] == Fresh
  {
    SaneSteady(cfg, b0);
  }

  /** Plugins that inject nothing first, each providing all it can before it gives way. */
  lemma BestPass(cfg: Config, b0: Boot, f: Name) returns (order: seq<Name>, b1: Boot)
    requires Sane(cfg, b0) && f in b0.phase && f in cfg
    requires forall d :: d in cfg[f].inject && Lost(b0, d) ==> EarlyGiven(cfg, b0, d)
    ensures FullPass(cfg, b0, order, b1) && !TooEarly(cfg, b1, f)
  {
    hide Sane, Steady, TurnedAway, Favourable, Pass, Lost, EarlyGiven, Reachable, Distinct;
    SaneFresh(cfg, b0);
    var early := set g | g in b0.phase && g in cfg && cfg[g].inject == [];
    var one := Listing(early);
    var two := Listing(b0.phase.Keys - early);
    var mid := EagerPass(cfg, b0, one);
    forall e | e in two
      ensures e in mid.phase && mid.phase[e] == Fresh
    {
      StillFresh(cfg, b0, one, mid, e);
    }
    b1 := EagerPass(cfg, mid, two);
    PassThen(cfg, b0, one, mid, two, b1);
    order := one + two;
    DistinctThen(one, two);
    if f in early {
      Served(cfg, b0, one, mid, f);
      FirstServed(cfg, mid, two, b1, f);
    } else {
      ServedByEarly(cfg, b0, one, mid, f);
      Served(cfg, mid, two, b1, f);
    }
  }

  /**
   Whether registration order and early provision can help: some pass does not turn `f` away if
   and only if every lost service it injects is provided by a plugin that injects nothing.
   */
  lemma CanBeInTime(cfg: Config, b0: Boot, f: Name)
    requires Sane(cfg, b0) && f in b0.phase && f in cfg
    ensures (exists order, b1 :: FullPass(cfg, b0, order, b1) && !TooEarly(cfg, b1, f)) <==>
            forall d :: d in cfg[f].inject && Lost(b0, d) ==> EarlyGiven(cfg, b0, d)
  {
    SaneSteady(cfg, b0);
    assert MidPass(cfg, b0);
    hide Sane, Steady, Pass, EarlyGiven, Lost, TurnedAway, MidPass;
    if forall d :: d in cfg[f].inject && Lost(b0, d) ==> EarlyGiven(cfg, b0, d) {
      var order, b1 := BestPass(cfg, b0, f);
    } else {
      var d :| d in cfg[f].inject && Lost(b0, d) && !EarlyGiven(cfg, b0, d);
      forall order, b1 | FullPass(cfg, b0, order, b1)
        ensures TooEarly(cfg, b1, f)
      {
        hide Unmixed, Reached;
        AlwaysTooEarly(cfg, b0, b0, order, b1, f, d);
      }
    }
  }

  /** A plugin that injects a lost service and comes first is turned away. */
  lemma FirstIsTooEarly(cfg: Config, b0: Boot, order: seq<Name>, b1: Boot, f: Name, d: Name)
    requires Sane(cfg, b0) && FullPass(cfg, b0, order, b1) && order != [] && order[0] == f
    requires f in cfg && d in cfg[f].inject && Lost(b0, d)
    ensures TooEarly(cfg, b1, f)
  {
    SaneSteady(cfg, b0);
    hide Unmixed, Reached, IsRun, End, Later, OwnPart, CanStep, Do, RanSet, Startable;
    var own :| PassStep(cfg, b0, f, own) && Pass(cfg, End(cfg, b0, own), order[1..], b1);
    var mid := End(cfg, b0, own);
    AskedTooEarly(cfg, b0, f);
    StepReached(cfg, b0, b0, Begin(f));
    ReachedSteady(cfg, b0, Do(cfg, b0, Begin(f)));
    RunOnwards(cfg, Do(cfg, b0, Begin(f)), own[1..]);
    RunOnwards(cfg, b0, own);
    ReachedSteady(cfg, b0, mid);
    var _ := PassRun(cfg, mid, order[1..], b1);
    LaterOn(cfg, Do(cfg, b0, Begin(f)), mid, b1);
    KeptAway(cfg, Do(cfg, b0, Begin(f)), b1, f);
  }

  /** A plugin that was too early is refused, whatever the timing. */
  lemma TooEarlyRefused(cfg: Config, b0: Boot, order: seq<Name>, b1: Boot, f: Name, steps: seq<Step>)
    requires Steady(cfg, b0) && FullPass(cfg, b0, order, b1) && TooEarly(cfg, b1, f) && f in cfg
    requires Complete(cfg, b1, steps)
    ensures f in End(cfg, b1, steps).phase && End(cfg, b1, steps).phase[f] == Refused
  {
    hide Steady, Pass, TurnedAway, Complete, End, Fates;
    PassAllBegun(cfg, b0, order, b1);
    PassDecides(cfg, b0, order, b1, steps, steps);
    TurnedAwayFate(cfg, b1, f);
  }

  // ---- one disputed service ----

  /** Plugin `a` provides `x` without declaring it; plugin `b` injects `x`; `start` has given `x` up. */
  ghost function Undeclared(a: Name, b: Name, x: Name): Config {
    map[a := Spec([], [], true, true, {x}), b := Spec([], [x], true, true, {})]
  }

  ghost function UndeclaredStart(a: Name, b: Name, x: Name): Boot {
    Boot(Registry({}, {x}, {}, map[]), map[a := Fresh, b := Fresh])
  }

  ghost predicate WillRun(cfg: Config, b: Boot, f: Name) {
    f in Fates(cfg, b) && Fates(cfg, b)[f] == Up
  }

  /** A plugin that only waits for what is there will start. */
  lemma FedFate(cfg: Config, b: Boot, f: Name)
    requires f in b.phase && f in cfg && b.phase[f] == Waiting && !TurnedAway(cfg, b, f)
    requires forall d :: d in cfg[f].inject ==> d in b.reg.services
    ensures f in Fates(cfg, b) && Fates(cfg, b)[f] == if cfg[f].ok then Up else Crashed
  {
    hide Startable, Doomed, TurnedAway;
    StartableLeast(cfg, b);
    assert Admitted(cfg, b, Startable(cfg, b), f);
  }

  lemma UndeclaredSane(a: Name, b: Name, x: Name)
    requires a != b
    ensures Sane(Undeclared(a, b, x), UndeclaredStart(a, b, x))
  {
  }

  /** The prompt provider's part of the pass. */
  lemma PromptPart(a: Name, b: Name, x: Name) returns (own: seq<Step>)
    requires a != b
    ensures
      var cfg, s0 := Undeclared(a, b, x), UndeclaredStart(a, b, x);
      && PassStep(cfg, s0, a, own) && NoLostWait(End(cfg, s0, own).reg)
      && b in End(cfg, s0, own).phase && End(cfg, s0, own).phase[b] == Fresh
      && x in End(cfg, s0, own).reg.services
  {
    var cfg, s0 := Undeclared(a, b, x), UndeclaredStart(a, b, x);
    UndeclaredSane(a, b, x);
    hide Sane, Steady, TurnedAway, PassStep;
    SaneFresh(cfg, s0);
    own := EagerStep(cfg, s0, a);
    assert a in [a] && x in cfg[a].gives;
  }

  /** Registered first and prompt, the provider is in time. */
  lemma ProviderInTime(a: Name, b: Name, x: Name) returns (b1: Boot)
    requires a != b
    ensures Pass(Undeclared(a, b, x), UndeclaredStart(a, b, x), [a, b], b1)
    ensures WillRun(Undeclared(a, b, x), b1, b)
  {
    var cfg, s0 := Undeclared(a, b, x), UndeclaredStart(a, b, x);
    hide Do, CanStep, TurnedAway, IsRun, End, OwnPart, NoLostWait;
    var own := PromptPart(a, b, x);
    var mid := End(cfg, s0, own);
    b1 := AsksInTime(cfg, mid, b);
    FedFate(cfg, b1, b);
    PassOne(cfg, s0, a, own, [b], b1);
  }

  /** A plugin that asks when everything is there waits for nothing. */
  lemma AsksInTime(cfg: Config, mid: Boot, f: Name) returns (b1: Boot)
    requires NoLostWait(mid.reg) && f in mid.phase && f in cfg && mid.phase[f] == Fresh && cfg[f].inject != []
    requires forall d :: d in cfg[f].inject ==> d in mid.reg.services
    ensures Pass(cfg, mid, [f], b1) && f in b1.phase && b1.phase[f] == Waiting && !TurnedAway(cfg, b1, f)
    ensures forall d :: d in cfg[f].inject ==> d in b1.reg.services
  {
    b1 := Do(cfg, mid, Begin(f));
    WaitForAllEffect(mid.reg, f, cfg[f].inject);
    AskedTooEarly(cfg, mid, f);
    EmptyRun(cfg, b1);
    Prepend(cfg, mid, Begin(f), []);
    hide IsRun, End, TurnedAway, WaitForAll;
    assert Pass(cfg, b1, [], b1);
    PassOne(cfg, mid, f, [Begin(f)] + [], [], b1);
    assert [f] + [] == [f];
  }

  lemma PassOne(cfg: Config, b: Boot, e: Name, own: seq<Step>, rest: seq<Name>, b': Boot)
    requires PassStep(cfg, b, e, own) && Pass(cfg, End(cfg, b, own), rest, b')
    ensures Pass(cfg, b, [e] + rest, b')
  {
    assert ([e] + rest)[0] == e && ([e] + rest)[1..] == rest;
  }

  /** Registered first but slow, the provider comes too late. */
  lemma ProviderSlow(a: Name, b: Name, x: Name) returns (b1: Boot)
    requires a != b
    ensures Pass(Undeclared(a, b, x), UndeclaredStart(a, b, x), [a, b], b1) && TooEarly(Undeclared(a, b, x), b1, b)
  {
    var cfg, s0 := Undeclared(a, b, x), UndeclaredStart(a, b, x);
    var s1 := Do(cfg, s0, Begin(a));
    var mid := Do(cfg, s1, Proceed(a));
    EmptyRun(cfg, mid);
    Prepend(cfg, s1, Proceed(a), []);
    Prepend(cfg, s0, Begin(a), [Proceed(a)] + []);
    var own := [Begin(a)] + ([Proceed(a)] + []);
    b1 := Do(cfg, mid, Begin(b));
    EmptyRun(cfg, b1);
    Prepend(cfg, mid, Begin(b), []);
    var asks := [Begin(b)] + [];
    AskedTooEarly(cfg, mid, b);
    assert x in cfg[b].inject;
    hide IsRun, End;
    assert Pass(cfg, b1, [], b1);
    PassOne(cfg, mid, b, asks, [], b1);
    PassOne(cfg, s0, a, own, [b], b1);
  }

  /**
   The same two plugins: the second one starts if the provider is registered first and
   provides before it gives way, and is refused if the provider is slow or registered later.
   */
  lemma OrderDecides(a: Name, b: Name, x: Name, b1: Boot)
    requires a != b
    ensures exists p :: && Pass(Undeclared(a, b, x), UndeclaredStart(a, b, x), [a, b], p)
                        && WillRun(Undeclared(a, b, x), p, b)
    ensures exists p :: && Pass(Undeclared(a, b, x), UndeclaredStart(a, b, x), [a, b], p)
                        && TooEarly(Undeclared(a, b, x), p, b)
    ensures Pass(Undeclared(a, b, x), UndeclaredStart(a, b, x), [b, a], b1) ==> TooEarly(Undeclared(a, b, x), b1, b)
  {
    hide Pass, TurnedAway, WillRun;
    var p := ProviderInTime(a, b, x);
    var q := ProviderSlow(a, b, x);
    if Pass(Undeclared(a, b, x), UndeclaredStart(a, b, x), [b, a], b1) {
      assert x in Undeclared(a, b, x)[b].inject && Lost(UndeclaredStart(a, b, x), x);
      FirstIsTooEarly(Undeclared(a, b, x), UndeclaredStart(a, b, x), [b, a], b1, b, x);
    }
  }
}
