/**
 From the context to the concurrent start: after the pass over the registered plugins timing
 does not matter; when what is provided and injected is declared, registration order does not
 matter either; and an acyclic dependency graph leaves nobody waiting.
 */
module PluginBoot {
  import opened PluginRegistry
  import opened PluginContext
  import opened PluginStart
  import opened PluginFate
  import opened PluginLate
  import opened PluginPass

  /** The fixed outcome of a plugin's `apply`. */
  datatype Result = Result(ok: bool, gives: set<Name>)

  ghost function SpecOf(e: Entry, results: map<Name, Result>): Spec
    requires e.plugin.name in results
  {
    Spec(e.plugin.declares, e.plugin.inject, e.state == Enabled, results[e.plugin.name].ok, results[e.plugin.name].gives)
  }

  ghost predicate Describes(cfg: Config, entries: seq<Entry>, results: map<Name, Result>) {
    && (forall e :: e in entries ==> e.plugin.name in results && e.plugin.name in cfg
                                     && cfg[e.plugin.name] == SpecOf(e, results))
    && (forall x :: x in cfg ==> exists e :: e in entries && e.plugin.name == x)
  }

  /** The plugins of a context before its first start. */
  ghost predicate BeforeStart(entries: seq<Entry>) {
    forall e :: e in entries ==> e.state == Enabled || e.state == Disabled
  }

  /** What a plugin provides, no other plugin declares. Nobody has to declare it. */
  ghost predicate Apart(entries: seq<Entry>, results: map<Name, Result>) {
    forall e, f, n :: (&& e in entries && f in entries && e.plugin.name in results
                       && n in results[e.plugin.name].gives && n in f.plugin.declares) ==> e == f
  }

  /** What a plugin provides and somebody injects, it declares. */
  ghost predicate Announced(entries: seq<Entry>, results: map<Name, Result>) {
    forall e, f, n :: (&& e in entries && f in entries && e.plugin.name in results
                       && n in results[e.plugin.name].gives && n in f.plugin.inject) ==> n in e.plugin.declares
  }

  ghost function BootState(r: Registry, cfg: Config): Boot {
    Boot(r, map x | x in cfg && cfg[x].enabled :: Fresh)
  }

  lemma PreparedIsSane(r: Registry, entries: seq<Entry>, cfg: Config, results: map<Name, Result>)
    requires Prepared(r, entries) && BeforeStart(entries) && Apart(entries, results) && Describes(cfg, entries, results)
    ensures Sane(cfg, BootState(r, cfg))
  {
    hide NoLostWait;
    var b := BootState(r, cfg);
    forall x, y, n | x in b.phase && y in b.phase && n in cfg[x].gives && n in cfg[y].declares
      ensures x == y
    {
      var e :| e in entries && e.plugin.name == x;
      var f :| f in entries && f.plugin.name == y;
    }
  }

  /** No service that is given up before the start is both injected and provided during it. */
  lemma AnnouncedIsUndisputed(r: Registry, entries: seq<Entry>, cfg: Config, results: map<Name, Result>)
    requires Prepared(r, entries) && BeforeStart(entries) && Describes(cfg, entries, results)
    requires Apart(entries, results) && Announced(entries, results)
    ensures Undisputed(cfg, BootState(r, cfg))
  {
    hide NoLostWait, Startable, Doomed;
    var b := BootState(r, cfg);
    forall x, d | x in b.phase && x in cfg && d in cfg[x].inject && Lost(b, d)
      ensures !Supplied(cfg, b, Startable(cfg, b), d)
    {
      var f :| f in entries && f.plugin.name == x;
      forall g | g in b.phase && g in cfg
        ensures d !in cfg[g].gives
      {
        var e :| e in entries && e.plugin.name == g;
        assert d in cfg[g].gives ==> e in entries && d in e.plugin.declares;
      }
    }
  }

  // ---- nobody is left waiting ----

  /**
   Every injected service is there beforehand, given up beforehand, or declared by a plugin of
   smaller rank that provides it unless it fails.
   */
  ghost predicate Acyclic(cfg: Config, b0: Boot, rank: map<Name, nat>) {
    && b0.phase.Keys <= rank.Keys
    && forall e, d :: e in b0.phase && e in cfg && d in cfg[e].inject ==>
                        || d in b0.reg.services || d in b0.reg.unavailable
                        || exists f :: f in b0.phase && f in cfg && Backs(cfg[f], d) && rank[f] < rank[e]
  }

  ghost predicate Backs(spec: Spec, d: Name) {
    d in spec.declares && (spec.ok ==> d in spec.gives)
  }

  lemma {:induction false} NobodyLeftWaiting(cfg: Config, b0: Boot, t: Boot, rank: map<Name, nat>, e: Name)
    requires Reached(cfg, b0, t) && Terminal(cfg, t) && Acyclic(cfg, b0, rank) && e in t.phase
    ensures t.phase[e] != Waiting
    decreases rank[e]
  {
    TerminalFedOut(cfg, t);
    hide Reached, Terminal, Backs, FedOut;
    ReachedKeys(cfg, b0, t);
    if t.phase[e] == Waiting {
      LeftWaiting(cfg, b0, t, e);
      var d :| d in cfg[e].inject && d !in t.reg.services && d !in t.reg.unavailable;
      if d in b0.reg.services || d in b0.reg.unavailable {
        KnownDecided(cfg, b0, t, d);
      } else {
        var f :| f in b0.phase && f in cfg && Backs(cfg[f], d) && rank[f] < rank[e];
        NobodyLeftWaiting(cfg, b0, t, rank, f);
        DeclaredDecided(cfg, b0, t, f, d);
      }
    }
  }

  lemma KnownDecided(cfg: Config, b0: Boot, t: Boot, d: Name)
    requires Reached(cfg, b0, t) && (d in b0.reg.services || d in b0.reg.unavailable)
    ensures d in t.reg.services || d in t.reg.unavailable
  {
    hide WaitsExplained, PhasesExplained, GivenBySome, DeclaredByFallen;
  }

  lemma DeclaredDecided(cfg: Config, b0: Boot, t: Boot, f: Name, d: Name)
    requires Reached(cfg, b0, t) && Terminal(cfg, t)
    requires f in t.phase && t.phase[f] != Waiting && Backs(cfg[f], d)
    ensures d in t.reg.services || d in t.reg.unavailable
  {
    NothingLeft(cfg, t, f);
    RanAgrees(cfg, b0, t, f);
    hide WaitsExplained, PhasesExplained, Terminal;
    if t.phase[f] == Up {
      assert Given(cfg, t, f, d);
      assert GivenBySome(cfg, t, d);
    } else {
      assert DeclaredByFallen(cfg, t, d);
    }
  }

  /** `rank` grows along every provides-to-inject link between enabled plugins. */
  ghost predicate Ranked(entries: seq<Entry>, rank: map<Name, nat>) {
    && (forall e :: e in entries ==> e.plugin.name in rank)
    && forall e, f, d :: e in entries && f in entries && e.state == Enabled && f.state == Enabled
                         && d in e.plugin.inject && d in f.plugin.declares ==>
                           rank[f.plugin.name] < rank[e.plugin.name]
  }

  /** A plugin that starts provides what it declares, as far as somebody injects it. */
  ghost predicate KeepsPromises(entries: seq<Entry>, results: map<Name, Result>) {
    forall e, f, n :: (&& e in entries && f in entries && e.plugin.name in results && results[e.plugin.name].ok
                       && n in e.plugin.declares && n in f.plugin.inject) ==> n in results[e.plugin.name].gives
  }

  lemma PreparedIsAcyclic(
    r: Registry, entries: seq<Entry>, cfg: Config, results: map<Name, Result>, rank: map<Name, nat>)
    requires Prepared(r, entries) && BeforeStart(entries) && Describes(cfg, entries, results)
    requires Ranked(entries, rank) && KeepsPromises(entries, results)
    ensures Acyclic(cfg, BootState(r, cfg), rank)
  {
    hide NoLostWait;
    var b := BootState(r, cfg);
    forall x, d | x in b.phase && d in cfg[x].inject && d !in r.services && d !in r.unavailable
      ensures exists y :: y in b.phase && y in cfg && Backs(cfg[y], d) && rank[y] < rank[x]
    {
      var e :| e in entries && e.plugin.name == x;
      assert Wanted(entries, d);
      var f :| f in entries && d in f.plugin.declares;
      assert f.state == Enabled;
      assert f.plugin.name in b.phase;
      assert Backs(cfg[f.plugin.name], d);
    }
  }

  /** The enabled plugins in registration order. */
  function Enrolled(entries: seq<Entry>): seq<Name> {
    if entries == [] then []
    else
      var front, last := Enrolled(entries[..|entries| - 1]), entries[|entries| - 1];
      if last.state == Enabled then front + [last.plugin.name] else front
  }

  lemma {:induction false} EnrolledNames(entries: seq<Entry>)
    requires UniqueNames(entries)
    ensures forall n :: n in Enrolled(entries) <==> exists e :: e in entries && e.state == Enabled && e.plugin.name == n
    ensures Distinct(Enrolled(entries))
  {
    if entries != [] {
      var front, last := entries[..|entries| - 1], entries[|entries| - 1];
      EnrolledNames(front);
      assert entries == front + [last];
      forall e | e in front
        ensures e.plugin.name != last.plugin.name
      {
      }
      assert last.plugin.name !in Enrolled(front);
    }
  }

  lemma EnrolledBoot(r: Registry, entries: seq<Entry>, cfg: Config, results: map<Name, Result>)
    requires UniqueNames(entries) && Describes(cfg, entries, results)
    ensures Distinct(Enrolled(entries)) && forall x :: x in Enrolled(entries) <==> x in BootState(r, cfg).phase
  {
    EnrolledNames(entries);
    forall x
      ensures x in Enrolled(entries) <==> x in BootState(r, cfg).phase
    {
      if x in BootState(r, cfg).phase {
        var e :| e in entries && e.plugin.name == x;
        assert e.state == Enabled;
      }
    }
  }

  /**
   The start of any set of plugins none of which declares what another one provides: once the
   pass over them is done, every complete interleaving leaves one and the same state, and every
   enabled plugin has the fate that can be computed then.
   */
  lemma StartIsDetermined(
    r: Registry, entries: seq<Entry>, cfg: Config, results: map<Name, Result>, b1: Boot, one: seq<Step>, two: seq<Step>)
    requires UniqueNames(entries) && Prepared(r, entries) && BeforeStart(entries) && Describes(cfg, entries, results)
    requires Apart(entries, results)
    requires Pass(cfg, BootState(r, cfg), Enrolled(entries), b1)
    requires Complete(cfg, b1, one) && Complete(cfg, b1, two)
    ensures End(cfg, b1, one) == End(cfg, b1, two)
    ensures End(cfg, b1, one).phase == Fates(cfg, b1)
  {
    PreparedIsSane(r, entries, cfg, results);
    SaneSteady(cfg, BootState(r, cfg));
    EnrolledBoot(r, entries, cfg, results);
    hide Sane, Steady, Pass, Complete, End, Fates, BootState, Enrolled;
    PassDecides(cfg, BootState(r, cfg), Enrolled(entries), b1, one, two);
  }

  /**
   When what is provided and injected is declared, registration order and early provision do
   not matter either: whatever the pass, every plugin ends as computed before it.
   */
  lemma OrderIsFree(
    r: Registry, entries: seq<Entry>, cfg: Config, results: map<Name, Result>,
    order: seq<Name>, b1: Boot, steps: seq<Step>)
    requires Prepared(r, entries) && BeforeStart(entries) && Describes(cfg, entries, results)
    requires Apart(entries, results) && Announced(entries, results)
    requires Pass(cfg, BootState(r, cfg), order, b1) && Complete(cfg, b1, steps)
    ensures End(cfg, b1, steps).phase == Fates(cfg, BootState(r, cfg))
  {
    var b0 := BootState(r, cfg);
    PreparedIsSane(r, entries, cfg, results);
    SaneSteady(cfg, b0);
    AnnouncedIsUndisputed(r, entries, cfg, results);
    hide Sane, Steady, Undisputed, Fates, End, IsRun, Terminal, BootState, Pass, Prepared, BeforeStart, Apart, Announced;
    hide Describes, Reached, Later;
    var before := PassRun(cfg, b0, order, b1);
    RunThen(cfg, b0, before, steps);
    EndFates(cfg, b0, before + steps);
  }

  /** Without cycles, every complete interleaving leaves every enabled plugin started or failed. */
  lemma StartDecidesAll(
    r: Registry, entries: seq<Entry>, cfg: Config, results: map<Name, Result>, rank: map<Name, nat>,
    steps: seq<Step>, x: Name)
    requires Prepared(r, entries) && BeforeStart(entries) && Apart(entries, results) && Describes(cfg, entries, results)
    requires Ranked(entries, rank) && KeepsPromises(entries, results)
    requires Complete(cfg, BootState(r, cfg), steps) && x in cfg && cfg[x].enabled
    ensures x in End(cfg, BootState(r, cfg), steps).phase
    ensures End(cfg, BootState(r, cfg), steps).phase[x] in {Up, Crashed, Refused}
  {
    var b0 := BootState(r, cfg);
    hide Prepared, BeforeStart, Apart, Describes, Ranked, KeepsPromises, Sane, Acyclic, Terminal, IsRun, End, Reached;
    PreparedIsSane(r, entries, cfg, results);
    PreparedIsAcyclic(r, entries, cfg, results, rank);
    SaneSteady(cfg, b0);
    hide Steady, Later, RanSet, Startable;
    RunOnwards(cfg, b0, steps);
    ReachedKeys(cfg, b0, End(cfg, b0, steps));
    NothingLeft(cfg, End(cfg, b0, steps), x);
    NobodyLeftWaiting(cfg, b0, End(cfg, b0, steps), rank, x);
  }

  /** The disputed two-plugin start is one that `start` prepares: the undeclared service is given up. */
  lemma DisputedIsPrepared(a: Name, b: Name, x: Name)
    requires a != b
    ensures
      var entries := [Entry(Plugin(a, [], []), Enabled), Entry(Plugin(b, [], [x]), Enabled)];
      && UniqueNames(entries) && BeforeStart(entries) && Prepared(UndeclaredStart(a, b, x).reg, entries)
      && Enrolled(entries) == [a, b]
  {
    var entries := [Entry(Plugin(a, [], []), Enabled), Entry(Plugin(b, [], [x]), Enabled)];
    assert entries[1] in entries;
    assert Prepared(UndeclaredStart(a, b, x).reg, entries);
    hide Prepared, NoLostWait;
    assert entries[..1] == [entries[0]];
    assert Enrolled(entries[..1]) == [a] by {
      assert entries[..1][..0] == [];
    }
  }

  // ---- the atomic start of one plugin is one of the interleavings ----

  /** Providing a service again, with nothing but provided services in between, changes nothing. */
  lemma GivenAlready(r: Registry, gives: seq<Name>, n: Name)
    requires NoLostWait(r) && n in gives
    ensures NoLostWait(ProvideAll(r, gives)) && Provide(ProvideAll(r, gives), n) == ProvideAll(r, gives)
  {
    ProvidedAll(r, gives);
    var p := ProvideAll(r, gives);
    assert Remaining(p.waiters, n) == p.waiters;
    assert SettleAll(p.waiters, n, Resolved) == map[];
  }

  lemma {:induction false} ProvidedAll(r: Registry, gives: seq<Name>)
    requires NoLostWait(r)
    ensures var p := ProvideAll(r, gives);
            NoLostWait(p) && forall n :: n in gives ==> n in p.services && n !in p.unavailable
  {
    if gives != [] {
      var front, last := gives[..|gives| - 1], gives[|gives| - 1];
      ProvidedAll(r, front);
      OperationsLoseNoWait(ProvideAll(r, front), last, Wait(last, last));
      assert gives == front + [last];
    }
  }

  /** Providing services one after the other, each in a step of its own unless it is a repetition. */
  lemma {:induction false} GiveRun(cfg: Config, b: Boot, x: Name, left: set<Name>, gives: seq<Name>)
    returns (steps: seq<Step>)
    requires NoLostWait(b.reg) && x in b.phase && x in cfg && b.phase[x] == Applying(left) && Elems(gives) <= left
    ensures IsRun(cfg, b, steps) && forall i :: 0 <= i < |steps| ==> steps[i].Give? && steps[i].e == x
    ensures End(cfg, b, steps) == Boot(ProvideAll(b.reg, gives), b.phase[x := Applying(left - Elems(gives))])
    decreases |gives|
  {
    hide IsRun, End, Provide, NoLostWait;
    if gives == [] {
      steps := [];
      EmptyRun(cfg, b);
      assert left - Elems([]) == left && b.phase[x := b.phase[x]] == b.phase;
    } else {
      var front, n := gives[..|gives| - 1], gives[|gives| - 1];
      assert gives == front + [n];
      steps := GiveRun(cfg, b, x, left, front);
      assert left - Elems(gives) == left - Elems(front) - {n};
      if n in front {
        GivenAlready(b.reg, front, n);
        assert left - Elems(gives) == left - Elems(front);
      } else {
        assert n in left - Elems(front);
        Append(cfg, b, steps, Give(x, n));
        steps := steps + [Give(x, n)];
      }
    }
  }

  /** What a plugin provides before its first await is part of what it provides. */
  ghost predicate Early(cfg: Config, eager: map<Name, seq<Name>>) {
    forall x :: x in eager && x in cfg ==> Elems(eager[x]) <= cfg[x].gives
  }

  /** One plugin's part of the pass as the context performs it. */
  lemma PassOverOne(cfg: Config, b: Boot, e: Entry, eager: map<Name, seq<Name>>) returns (own: seq<Step>)
    requires NoLostWait(b.reg) && e.state == Enabled && Early(cfg, eager)
    requires e.plugin.name in b.phase && b.phase[e.plugin.name] == Fresh
    requires e.plugin.name in cfg && cfg[e.plugin.name].inject == e.plugin.inject
    ensures PassStep(cfg, b, e.plugin.name, own)
    ensures
      var b', asked := End(cfg, b, own), WaitForAll(b.reg, e.plugin.name, e.plugin.inject);
      && b'.reg == (if e.plugin.inject == [] && e.plugin.name in eager then ProvideAll(asked, eager[e.plugin.name])
                    else asked)
      && NoLostWait(b'.reg) && b'.phase.Keys == b.phase.Keys
      && forall x :: x in b.phase && x != e.plugin.name ==> b'.phase[x] == b.phase[x]
  {
    var x := e.plugin.name;
    var s1 := Do(cfg, b, Begin(x));
    WaitForAllEffect(b.reg, x, e.plugin.inject);
    hide IsRun, End, WaitForAll, ProvideAll, NoLostWait;
    if e.plugin.inject == [] {
      var s2 := Do(cfg, s1, Proceed(x));
      var gives := if x in eager then eager[x] else [];
      own := GiveRun(cfg, s2, x, cfg[x].gives, gives);
      ProvidedAll(s2.reg, gives);
      Prepend(cfg, s1, Proceed(x), own);
      own := [Proceed(x)] + own;
      Prepend(cfg, b, Begin(x), own);
      own := [Begin(x)] + own;
    } else {
      EmptyRun(cfg, s1);
      Prepend(cfg, b, Begin(x), []);
      own := [Begin(x)] + [];
    }
  }

  /** The pass of the context is a pass of the interleaved start: same registry. */
  lemma {:induction false} PassOverIsPass(
    cfg: Config, b: Boot, entries: seq<Entry>, eager: map<Name, seq<Name>>) returns (b1: Boot)
    requires NoLostWait(b.reg) && UniqueNames(entries) && Early(cfg, eager)
    requires forall e :: e in entries && e.state == Enabled ==>
                           && e.plugin.name in b.phase && b.phase[e.plugin.name] == Fresh
                           && e.plugin.name in cfg && cfg[e.plugin.name].inject == e.plugin.inject
    ensures Pass(cfg, b, Enrolled(entries), b1) && b1.reg == PassOver(b.reg, entries, eager)
    ensures NoLostWait(b1.reg) && b1.phase.Keys == b.phase.Keys
    ensures forall x :: x in b.phase && x !in Enrolled(entries) ==> b1.phase[x] == b.phase[x]
  {
    hide NoLostWait, PassStep, WaitForAll, ProvideAll, Early;
    if entries == [] {
      b1 := b;
    } else {
      var front, e := entries[..|entries| - 1], entries[|entries| - 1];
      assert entries == front + [e];
      assert e in entries;
      var mid := PassOverIsPass(cfg, b, front, eager);
      if e.state == Enabled {
        EnrolledNames(front);
        assert e.plugin.name !in Enrolled(front);
        var own := PassOverOne(cfg, mid, e, eager);
        OwnRuns(cfg, mid, e.plugin.name, own);
        b1 := End(cfg, mid, own);
        assert Pass(cfg, b1, [], b1);
        PassOne(cfg, mid, e.plugin.name, own, [], b1);
        assert [e.plugin.name] + [] == [e.plugin.name];
        PassThen(cfg, b, Enrolled(front), mid, [e.plugin.name], b1);
      } else {
        b1 := mid;
      }
    }
  }

  lemma OwnRuns(cfg: Config, b: Boot, e: Name, own: seq<Step>)
    requires PassStep(cfg, b, e, own)
    ensures IsRun(cfg, b, own)
  {
  }

  /** The phase that corresponds to the state the atomic start leaves. */
  function PhaseAfter(r: Registry, e: Entry, ok: bool): Phase {
    if Blocked(r, e) then Refused else if !Fed(r, e) then Waiting else if ok then Up else Crashed
  }

  /**
   What `startEntry` does in one piece, the small steps do in some order: same registry, and
   the plugin ends in the corresponding phase.
   */
  lemma AtomicStartIsRun(cfg: Config, b: Boot, e: Entry, gives: seq<Name>, ok: bool)
    returns (steps: seq<Step>)
    requires NoLostWait(b.reg) && e.state == Enabled
    requires e.plugin.name in b.phase && b.phase[e.plugin.name] == Fresh
    requires e.plugin.name in cfg
             && cfg[e.plugin.name] == Spec(e.plugin.declares, e.plugin.inject, true, ok, Elems(gives))
    ensures IsRun(cfg, b, steps)
    ensures End(cfg, b, steps) ==
            Boot(StartEffect(b.reg, e, gives, ok), b.phase[e.plugin.name := PhaseAfter(b.reg, e, ok)])
  {
    hide IsRun, End, Provide, WaitForAll, MarkAll, ProvideAll, NoLostWait;
    var x := e.plugin.name;
    EmptyRun(cfg, b);
    Append(cfg, b, [], Begin(x));
    steps := [] + [Begin(x)];
    var asked := WaitForAll(b.reg, x, e.plugin.inject);
    WaitForAllEffect(b.reg, x, e.plugin.inject);
    var s1 := Boot(asked, b.phase[x := Waiting]);
    if Blocked(b.reg, e) {
      var d :| d in e.plugin.inject && d !in b.reg.services && d in b.reg.unavailable;
      assert StatusOf(s1.reg, Wait(x, d)) == Done(Rejected);
      Append(cfg, b, steps, Refuse(x));
      steps := steps + [Refuse(x)];
    } else if Fed(b.reg, e) {
      Append(cfg, b, steps, Proceed(x));
      steps := steps + [Proceed(x)];
      var s2 := Boot(asked, s1.phase[x := Applying(Elems(gives))]);
      var more := GiveRun(cfg, s2, x, Elems(gives), gives);
      assert Elems(gives) - Elems(gives) == {};
      RunThen(cfg, b, steps, more);
      steps := steps + more;
      Append(cfg, b, steps, Finish(x));
      steps := steps + [Finish(x)];
    }
  }
}
