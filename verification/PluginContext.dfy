/**
 The plugin context: registration, one-plugin start, enabling, and disabling together with
 everything that depends on the disabled plugin. Handlers that await are one atomic step.
 */
module PluginContext {
  import opened Wrappers
  import opened PluginRegistry

  datatype PluginState = Enabled | Disabled | Started | Failed | Stopped

  datatype Plugin = Plugin(name: Name, declares: seq<Name>, inject: seq<Name>)

  datatype Entry = Entry(plugin: Plugin, state: PluginState)

  ghost predicate UniqueNames(entries: seq<Entry>) {
    forall i, j :: 0 <= i < j < |entries| ==> entries[i].plugin.name != entries[j].plugin.name
  }

  /** Every started plugin has all its injected services. */
  ghost predicate AllFed(services: set<Name>, entries: seq<Entry>) {
    forall e :: e in entries && e.state == Started ==> forall d :: d in e.plugin.inject ==> d in services
  }

  function IndexOf(entries: seq<Entry>, name: Name): (i: nat)
    ensures i <= |entries|
    ensures i < |entries| ==> entries[i].plugin.name == name
    ensures i == |entries| ==> forall e :: e in entries ==> e.plugin.name != name
  {
    if entries == [] then 0
    else if entries[0].plugin.name == name then 0
    else 1 + IndexOf(entries[1..], name)
  }

  function WithState(entries: seq<Entry>, i: nat, state: PluginState): seq<Entry>
    requires i < |entries|
  {
    entries[i := entries[i].(state := state)]
  }

  // ---- dependents ----

  predicate Injects(e: Entry, services: set<Name>) {
    exists d :: d in e.plugin.inject && d in services
  }

  /** Services declared by the named plugins. */
  function Offered(entries: seq<Entry>, names: set<Name>): set<Name> {
    set i, n | 0 <= i < |entries| && entries[i].plugin.name in names && n in entries[i].plugin.declares :: n
  }

  /** `x` hangs below `root` by a chain of `n` provides-to-inject links. */
  ghost predicate DependsBy(entries: seq<Entry>, root: Name, x: Name, n: nat)
    decreases n
  {
    if n == 0 then x == root
    else
      && x != root
      && exists e, y :: e in entries && e.plugin.name == x && DependsBy(entries, root, y, n - 1) &&
                        Injects(e, Offered(entries, {y}))
  }

  ghost predicate Dependent(entries: seq<Entry>, root: Name, x: Name) {
    exists n: nat :: n >= 1 && DependsBy(entries, root, x, n)
  }

  /**
   A link goes from one plugin to another exactly if the first declares a service the second
   injects; the root hangs below nobody.
   */
  lemma LinkMeaning(entries: seq<Entry>, root: Name, x: Name, n: nat)
    ensures DependsBy(entries, root, x, n) <==>
            if n == 0 then x == root
            else
              && x != root
              && exists e, f, d :: && e in entries && e.plugin.name == x && d in e.plugin.inject
                                   && f in entries && d in f.plugin.declares
                                   && DependsBy(entries, root, f.plugin.name, n - 1)
  {
    hide Injects, Offered;
    if n > 0 && x != root {
      if e, y :| && e in entries && e.plugin.name == x && DependsBy(entries, root, y, n - 1)
                 && Injects(e, Offered(entries, {y})) {
        var f, d := InjectsFrom(entries, e, y);
        assert DependsBy(entries, root, f.plugin.name, n - 1);
      }
      if e, f, d :| && e in entries && e.plugin.name == x && d in e.plugin.inject
                    && f in entries && d in f.plugin.declares && DependsBy(entries, root, f.plugin.name, n - 1) {
        OfferedMeaning(entries, {f.plugin.name});
        InjectsOne(e, d, Offered(entries, {f.plugin.name}));
      }
    }
  }

  lemma InjectsFrom(entries: seq<Entry>, e: Entry, y: Name) returns (f: Entry, d: Name)
    requires Injects(e, Offered(entries, {y}))
    ensures d in e.plugin.inject && f in entries && f.plugin.name == y && d in f.plugin.declares
  {
    d :| d in e.plugin.inject && d in Offered(entries, {y});
    var i :| 0 <= i < |entries| && entries[i].plugin.name in {y} && d in entries[i].plugin.declares;
    f := entries[i];
  }

  lemma InjectsOne(e: Entry, d: Name, services: set<Name>)
    requires d in e.plugin.inject && d in services
    ensures Injects(e, services)
  {
  }

  lemma OfferedMeaning(entries: seq<Entry>, names: set<Name>)
    ensures forall d :: d in Offered(entries, names) <==>
                        exists f :: f in entries && f.plugin.name in names && d in f.plugin.declares
  {
    forall d
      ensures d in Offered(entries, names) <==>
              exists f :: f in entries && f.plugin.name in names && d in f.plugin.declares
    {
      if f :| f in entries && f.plugin.name in names && d in f.plugin.declares {
        var i :| 0 <= i < |entries| && entries[i] == f;
      }
    }
  }

  /** A plugin other than the root is taken down if and only if it injects something a plugin taken down declares. */
  lemma TakenDownExactly(entries: seq<Entry>, root: Name, targets: set<Name>, e: Entry)
    requires UniqueNames(entries) && e in entries && e.plugin.name != root
    requires forall x :: x in targets <==> x == root || Dependent(entries, root, x)
    ensures e.plugin.name in targets <==>
            exists f, d :: f in entries && f.plugin.name in targets && d in f.plugin.declares && d in e.plugin.inject
  {
    hide DependsBy;
    if e.plugin.name in targets {
      var n: nat :| n >= 1 && DependsBy(entries, root, e.plugin.name, n);
      LinkMeaning(entries, root, e.plugin.name, n);
      var e', f, d :| && e' in entries && e'.plugin.name == e.plugin.name && d in e'.plugin.inject
                      && f in entries && d in f.plugin.declares && DependsBy(entries, root, f.plugin.name, n - 1);
      LinkMeaning(entries, root, f.plugin.name, 0);
      assert e' == e && f.plugin.name in targets;
    }
    if f, d :| f in entries && f.plugin.name in targets && d in f.plugin.declares && d in e.plugin.inject {
      LinkMeaning(entries, root, f.plugin.name, 0);
      var n: nat :| DependsBy(entries, root, f.plugin.name, n);
      LinkMeaning(entries, root, e.plugin.name, n + 1);
    }
  }

  lemma OfferedMember(entries: seq<Entry>, names: set<Name>, e: Entry)
    requires Injects(e, Offered(entries, names))
    ensures exists y :: y in names && Injects(e, Offered(entries, {y}))
  {
    var d :| d in e.plugin.inject && d in Offered(entries, names);
    var i :| 0 <= i < |entries| && entries[i].plugin.name in names && d in entries[i].plugin.declares;
    assert d in Offered(entries, {entries[i].plugin.name});
  }

  lemma DependentStep(entries: seq<Entry>, root: Name, out: set<Name>, e: Entry)
    requires e in entries && e.plugin.name != root && Injects(e, Offered(entries, out + {root}))
    requires forall x :: x in out ==> Dependent(entries, root, x)
    ensures Dependent(entries, root, e.plugin.name)
  {
    hide Offered;
    OfferedMember(entries, out + {root}, e);
    var y :| y in out + {root} && Injects(e, Offered(entries, {y}));
    var n: nat := 0;
    if y != root {
      n :| n >= 1 && DependsBy(entries, root, y, n);
    }
    assert DependsBy(entries, root, e.plugin.name, n + 1);
  }

  lemma {:induction false} ClosedHoldsAll(entries: seq<Entry>, root: Name, out: set<Name>, x: Name, n: nat)
    requires forall e :: e in entries && e.plugin.name != root && Injects(e, Offered(entries, out + {root})) ==>
                           e.plugin.name in out
    requires n >= 1 && DependsBy(entries, root, x, n)
    ensures x in out
    decreases n
  {
    var e, y :| e in entries && e.plugin.name == x && DependsBy(entries, root, y, n - 1) &&
                Injects(e, Offered(entries, {y}));
    if n > 1 {
      ClosedHoldsAll(entries, root, out, y, n - 1);
    }
  }

  lemma OfferedPlus(entries: seq<Entry>, names: set<Name>, i: nat)
    requires UniqueNames(entries) && i < |entries|
    ensures Offered(entries, names + {entries[i].plugin.name}) == Offered(entries, names) + Elems(entries[i].plugin.declares)
  {
  }

  /** Nobody outside the collected ones injects a collected service. */
  ghost predicate Stable(entries: seq<Entry>, upTo: nat, root: Name, out: set<Name>, offered: set<Name>)
    requires upTo <= |entries|
  {
    forall j :: 0 <= j < upTo && Injects(entries[j], offered) ==> entries[j].plugin.name in out + {root}
  }

  /** The collected plugins are dependents, and `offered` is what they and the root declare. */
  ghost predicate Collected(entries: seq<Entry>, root: Name, out: set<Name>, offered: set<Name>) {
    && root !in out
    && offered == Offered(entries, out + {root})
    && forall x :: x in out ==> Dependent(entries, root, x)
  }

  lemma CollectOne(entries: seq<Entry>, root: Name, out: set<Name>, offered: set<Name>, i: nat)
    requires UniqueNames(entries) && i < |entries| && Collected(entries, root, out, offered)
    requires entries[i].plugin.name != root && Injects(entries[i], offered)
    ensures Collected(entries, root, out + {entries[i].plugin.name}, offered + Elems(entries[i].plugin.declares))
  {
    hide Offered, Injects, Dependent, Elems;
    var name := entries[i].plugin.name;
    DependentStep(entries, root, out, entries[i]);
    OfferedPlus(entries, out + {root}, i);
    assert out + {root} + {name} == out + {name} + {root};
  }

  /** One round over all plugins. */
  method CollectRound(entries: seq<Entry>, root: Name, out0: set<Name>, offered0: set<Name>)
    returns (out: set<Name>, offered: set<Name>, grew: bool)
    requires UniqueNames(entries) && Collected(entries, root, out0, offered0)
    ensures Collected(entries, root, out, offered)
    ensures forall x :: x in out && x !in out0 ==> exists i :: 0 <= i < |entries| && entries[i].plugin.name == x
    ensures out0 <= out && (grew ==> out0 < out)
    ensures !grew ==> out == out0 && Stable(entries, |entries|, root, out, offered)
  {
    hide Injects, Collected, Offered, Dependent;
    out, offered, grew := out0, offered0, false;
    for i := 0 to |entries|
      invariant Collected(entries, root, out, offered)
      invariant forall x :: x in out && x !in out0 ==> exists i :: 0 <= i < |entries| && entries[i].plugin.name == x
      invariant out0 <= out && (grew ==> out0 < out)
      invariant !grew ==> out == out0 && Stable(entries, i, root, out, offered)
    {
      var e := entries[i];
      if e.plugin.name in out || e.plugin.name == root {
        continue;
      }
      if Injects(e, offered) {
        CollectOne(entries, root, out, offered, i);
        out := out + {e.plugin.name};
        offered := offered + Elems(e.plugin.declares);
        grew := true;
      }
    }
  }

  lemma CollectedRoot(entries: seq<Entry>, root: nat)
    requires UniqueNames(entries) && root < |entries|
    ensures Collected(entries, entries[root].plugin.name, {}, Elems(entries[root].plugin.declares))
  {
    var name := entries[root].plugin.name;
    OfferedPlus(entries, {}, root);
    assert {} + {name} == {name};
    assert Offered(entries, {}) == {};
  }

  lemma CollectedAll(entries: seq<Entry>, root: Name, out: set<Name>, offered: set<Name>)
    requires Collected(entries, root, out, offered) && Stable(entries, |entries|, root, out, offered)
    ensures forall x :: x in out <==> Dependent(entries, root, x)
    ensures forall e :: e in entries && Injects(e, offered) ==> e.plugin.name in out + {root}
  {
    hide Injects, Offered;
    forall x, n: nat | n >= 1 && DependsBy(entries, root, x, n)
      ensures x in out
    {
      ClosedHoldsAll(entries, root, out, x, n);
    }
  }

  /** The grow-until-stable loop: exactly the plugins reachable from the root. */
  method CollectDependents(entries: seq<Entry>, root: nat) returns (out: set<Name>)
    requires UniqueNames(entries) && root < |entries|
    ensures forall x :: x in out <==> Dependent(entries, entries[root].plugin.name, x)
    ensures entries[root].plugin.name !in out
    ensures forall e :: e in entries && Injects(e, Offered(entries, out + {entries[root].plugin.name})) ==>
                          e.plugin.name in out + {entries[root].plugin.name}
    ensures forall e, f, d :: (&& e in entries && d in e.plugin.inject && f in entries && d in f.plugin.declares
                               && f.plugin.name in out + {entries[root].plugin.name}) ==>
                                e.plugin.name in out + {entries[root].plugin.name}
  {
    hide Injects, Offered, Dependent, Elems;
    var rootName := entries[root].plugin.name;
    var offered := Elems(entries[root].plugin.declares);
    out := {};
    ghost var names := set i | 0 <= i < |entries| :: entries[i].plugin.name;
    CollectedRoot(entries, root);
    var grew := true;
    while grew
      invariant out <= names
      invariant Collected(entries, rootName, out, offered)
      invariant !grew ==> Stable(entries, |entries|, rootName, out, offered)
      decreases names - out, grew
    {
      out, offered, grew := CollectRound(entries, rootName, out, offered);
    }
    CollectedAll(entries, rootName, out, offered);
    NobodyOutside(entries, out + {rootName});
  }

  lemma NobodyOutside(entries: seq<Entry>, names: set<Name>)
    requires forall e :: e in entries && Injects(e, Offered(entries, names)) ==> e.plugin.name in names
    ensures forall e, f, d :: (&& e in entries && d in e.plugin.inject && f in entries && d in f.plugin.declares
                               && f.plugin.name in names) ==> e.plugin.name in names
  {
    OfferedMeaning(entries, names);
  }

  // ---- the context ----

  /** The states after disabling the targets. */
  function Switched(entries: seq<Entry>, targets: set<Name>): seq<Entry> {
    seq(|entries|, i requires 0 <= i < |entries| =>
      if entries[i].plugin.name in targets then entries[i].(state := Disabled) else entries[i])
  }

  /** What `e` starting now comes to: it has failed, runs, or is left waiting. */
  predicate Blocked(r: Registry, e: Entry) {
    exists d :: d in e.plugin.inject && d !in r.services && d in r.unavailable
  }

  predicate Fed(r: Registry, e: Entry) {
    forall d :: d in e.plugin.inject ==> d in r.services
  }

  /** The state `e` has after `startEntry`, when `ok` tells whether its `apply` returns. */
  function StartState(r: Registry, e: Entry, ok: bool): PluginState {
    if e.state != Enabled then e.state
    else if Blocked(r, e) then Failed
    else if !Fed(r, e) then Enabled
    else if ok then Started else Failed
  }

  /** What that start leaves in the registry, when `apply` provides `gives`. */
  function StartEffect(r: Registry, e: Entry, gives: seq<Name>, ok: bool): Registry {
    if e.state != Enabled then r
    else
      var asked := WaitForAll(r, e.plugin.name, e.plugin.inject);
      if Blocked(r, e) then MarkAll(asked, e.plugin.declares)
      else if !Fed(r, e) then asked
      else
        var given := ProvideAll(asked, gives);
        if ok then given else MarkAll(given, e.plugin.declares)
  }

  /**
   A start asks for what the plugin injects: one service lost for good and it fails, all there
   and it runs, otherwise it waits. Running provides its services; failing gives up all it
   declares, provided or not.
   */
  lemma StartMeaning(r: Registry, e: Entry, gives: seq<Name>, ok: bool)
    requires NoLostWait(r)
    ensures
      var state, r' := StartState(r, e, ok), StartEffect(r, e, gives, ok);
      var fed := forall d :: d in e.plugin.inject ==> d in r.services;
      var lost := exists d :: d in e.plugin.inject && d !in r.services && d in r.unavailable;
      if e.state != Enabled then state == e.state && r' == r
      else
        && (state == Started <==> fed && ok)
        && (state == Failed <==> lost || (fed && !ok))
        && (state == Enabled <==> !fed && !lost)
        && (forall n :: n in r'.services <==> n in r.services || (fed && n in gives))
        && (forall n :: n in r'.unavailable <==>
              || (n in r.unavailable && !(fed && n in gives))
              || (state == Failed && n in e.plugin.declares))
  {
    if e.state == Enabled {
      hide NoLostWait, MarkAll, ProvideAll, WaitForAll;
      var asked := WaitForAll(r, e.plugin.name, e.plugin.inject);
      WaitForAllEffect(r, e.plugin.name, e.plugin.inject);
      var given := ProvideAll(asked, gives);
      ProvideAllEffect(asked, gives);
      MarkAllNames(asked, e.plugin.declares);
      MarkAllNames(given, e.plugin.declares);
    }
  }

  lemma {:induction false} MarkAllNames(r: Registry, names: seq<Name>)
    ensures MarkAll(r, names).services == r.services && MarkAll(r, names).unavailable == r.unavailable + Elems(names)
  {
    if names != [] {
      var front, last := names[..|names| - 1], names[|names| - 1];
      MarkAllNames(r, front);
      assert names == front + [last];
    }
  }

  /**
   The registry after the pass of `start`: every enabled plugin asks in turn, and one that
   injects nothing provides what it provides before its first await.
   */
  function PassOver(r: Registry, entries: seq<Entry>, eager: map<Name, seq<Name>>): Registry {
    if entries == [] then r
    else
      var before, e := PassOver(r, entries[..|entries| - 1], eager), entries[|entries| - 1];
      if e.state != Enabled then before
      else
        var asked := WaitForAll(before, e.plugin.name, e.plugin.inject);
        if e.plugin.inject == [] && e.plugin.name in eager then ProvideAll(asked, eager[e.plugin.name]) else asked
  }

  lemma SwitchFed(services: set<Name>, entries: seq<Entry>, targets: set<Name>, rest: set<Name>)
    requires AllFed(services, entries) && rest == services - Offered(entries, targets)
    requires forall e :: e in entries && Injects(e, Offered(entries, targets)) ==> e.plugin.name in targets
    ensures AllFed(rest, Switched(entries, targets))
  {
    hide Offered;
    forall e, d | e in Switched(entries, targets) && e.state == Started && d in e.plugin.inject
      ensures d in rest
    {
      var i :| 0 <= i < |entries| && Switched(entries, targets)[i] == e;
      assert entries[i] in entries && entries[i] == e;
      assert !Injects(e, Offered(entries, targets));
    }
  }

  lemma ChangeFed(services: set<Name>, entries: seq<Entry>, i: nat, e: Entry, more: set<Name>)
    requires AllFed(services, entries) && i < |entries| && services <= more
    requires e.state == Started ==> forall d :: d in e.plugin.inject ==> d in more
    ensures AllFed(more, entries[i := e])
  {
    forall x | x in entries[i := e] && x.state == Started
      ensures forall d :: d in x.plugin.inject ==> d in more
    {
      assert x == e || x in entries;
    }
  }

  lemma SwitchUnique(entries: seq<Entry>, targets: set<Name>)
    requires UniqueNames(entries)
    ensures UniqueNames(Switched(entries, targets))
  {
  }

  /** The table without the plugin at `at`. */
  function Dropped(entries: seq<Entry>, at: nat): seq<Entry> {
    if at < |entries| then entries[..at] + entries[at + 1..] else entries
  }

  lemma DroppedUnique(entries: seq<Entry>, at: nat)
    requires UniqueNames(entries)
    ensures UniqueNames(Dropped(entries, at))
  {
    var kept := Dropped(entries, at);
    assert forall i :: 0 <= i < |kept| ==> kept[i] == entries[if i < at then i else i + 1];
  }

  lemma DroppedMember(entries: seq<Entry>, name: Name, e: Entry)
    requires UniqueNames(entries)
    ensures e in Dropped(entries, IndexOf(entries, name)) <==> e in entries && e.plugin.name != name
  {
    var at := IndexOf(entries, name);
    hide IndexOf;
    if at < |entries| {
      var front, back := entries[..at], entries[at + 1..];
      assert entries == front + [entries[at]] + back;
      assert e in front + back <==> e in front || e in back;
      forall i | 0 <= i < |entries| && i != at
        ensures entries[i].plugin.name != name
      {
      }
    }
  }

  /** How the waits of a starting plugin come out. */
  datatype Wakeup = AllThere | OneLost | Unanswered

  /**
   The last step of a start marks the plugin started without looking at the registry again;
   that is safe exactly when its injected services are still there. With `disable` running
   while `apply` is awaited they need not be.
   */
  lemma LateFinishExact(services: set<Name>, entries: seq<Entry>, i: nat)
    requires AllFed(services, entries) && i < |entries|
    ensures AllFed(services, WithState(entries, i, Started)) <==>
            forall d :: d in entries[i].plugin.inject ==> d in services
  {
    var e := entries[i].(state := Started);
    assert WithState(entries, i, Started)[i] == e;
    if forall d :: d in e.plugin.inject ==> d in services {
      ChangeFed(services, entries, i, e, services);
    }
  }

  class Context {
    var services: set<Name>
    var waiters: set<Wait>
    var unavailable: set<Name>
    var settled: map<Wait, Outcome>
    var entries: seq<Entry>
    var booting: bool
    const disabledNames: set<Name>

    ghost function View(): Registry
      reads this
    {
      Registry(services, unavailable, waiters, settled)
    }

    /** No wait is lost, names are unique, and whoever has started has what it injects. */
    ghost predicate Valid()
      reads this
    {
      NoLostWait(View()) && UniqueNames(entries) && AllFed(services, entries)
    }

    constructor (disabledNames: set<Name>)
      ensures Valid() && View() == Registry({}, {}, {}, map[]) && entries == [] && !booting
      ensures this.disabledNames == disabledNames
    {
      services, waiters, unavailable, settled := {}, {}, {}, map[];
      entries, booting := [], false;
      this.disabledNames := disabledNames;
    }

    method Provide(name: Name)
      requires Valid()
      modifies this`services, this`unavailable, this`waiters, this`settled
      ensures Valid() && View() == PluginRegistry.Provide(old(View()), name)
    {
      OperationsLoseNoWait(View(), name, Wait(name, name));
      services := services + {name};
      unavailable := unavailable - {name};
      settled := settled + SettleAll(waiters, name, Resolved);
      waiters := Remaining(waiters, name);
    }

    method WaitFor(owner: Name, dep: Name)
      requires Valid()
      modifies this`waiters, this`settled
      ensures Valid() && View() == PluginRegistry.WaitFor(old(View()), Wait(owner, dep))
    {
      var w := Wait(owner, dep);
      OperationsLoseNoWait(View(), dep, w);
      if dep in services {
        settled, waiters := settled[w := Resolved], waiters - {w};
      } else if dep in unavailable {
        settled, waiters := settled[w := Rejected], waiters - {w};
      } else {
        waiters, settled := waiters + {w}, settled - {w};
      }
    }

    method MarkUnavailable(name: Name)
      requires NoLostWait(View())
      modifies this`unavailable, this`waiters, this`settled
      ensures NoLostWait(View()) && View() == PluginRegistry.MarkUnavailable(old(View()), name)
    {
      OperationsLoseNoWait(View(), name, Wait(name, name));
      unavailable := unavailable + {name};
      settled := settled + SettleAll(waiters, name, Rejected);
      waiters := Remaining(waiters, name);
    }

    method MarkEach(names: seq<Name>)
      requires NoLostWait(View())
      modifies this`unavailable, this`waiters, this`settled
      ensures NoLostWait(View()) && View() == MarkAll(old(View()), names)
      ensures waiters <= old(waiters)
    {
      for i := 0 to |names|
        invariant NoLostWait(View()) && View() == MarkAll(old(View()), names[..i])
        invariant waiters <= old(waiters)
      {
        assert names[..i + 1][..i] == names[..i];
        MarkUnavailable(names[i]);
      }
      assert names[..|names|] == names;
    }

    /**
     Registration replaces an earlier plugin of the same name; while booting the new one is
     started right away, with the outcome of its `apply` given.
     */
    method Register(p: Plugin, gives: seq<Name>, ok: bool)
      requires Valid()
      modifies this`services, this`unavailable, this`waiters, this`settled, this`entries
      ensures Valid()
      ensures
        var e := Entry(p, if p.name in disabledNames then Disabled else Enabled);
        var at := IndexOf(old(entries), p.name);
        var kept := if at < |old(entries)| then old(entries)[..at] + old(entries)[at + 1..] else old(entries);
        && View() == (if booting then StartEffect(old(View()), e, gives, ok) else old(View()))
        && entries == kept + [if booting then e.(state := StartState(old(View()), e, ok)) else e]
        && forall x :: x in kept <==> x in old(entries) && x.plugin.name != p.name
    {
      hide NoLostWait, StartEffect, StartState;
      var kept := Dropped(entries, IndexOf(entries, p.name));
      assert forall i :: 0 <= i < |kept| ==> kept[i] in kept;
      entries := kept + [Entry(p, if p.name in disabledNames then Disabled else Enabled)];
      if booting {
        var _ := StartEntry(|kept|, gives, ok);
      }
    }

    /** The waits of a starting plugin, all made at once. */
    method Await(e: Entry) returns (wakeup: Wakeup)
      requires Valid()
      modifies this`waiters, this`settled
      ensures Valid() && View() == WaitForAll(old(View()), e.plugin.name, e.plugin.inject)
      ensures wakeup == if Blocked(old(View()), e) then OneLost else if Fed(old(View()), e) then AllThere else Unanswered
    {
      hide NoLostWait, AllFed, UniqueNames, Blocked, Fed, StatusOf;
      ghost var start := View();
      var owner := e.plugin.name;
      for k := 0 to |e.plugin.inject|
        invariant Valid() && View() == WaitForAll(start, owner, e.plugin.inject[..k])
      {
        assert e.plugin.inject[..k + 1][..k] == e.plugin.inject[..k];
        WaitFor(owner, e.plugin.inject[k]);
      }
      assert e.plugin.inject[..|e.plugin.inject|] == e.plugin.inject;
      WaitForAllEffect(start, owner, e.plugin.inject);
      Answers(start, View(), e);
      if exists d :: d in e.plugin.inject && Wait(owner, d) in settled && settled[Wait(owner, d)] == Rejected {
        return OneLost;
      }
      if exists d :: d in e.plugin.inject && Wait(owner, d) !in settled {
        return Unanswered;
      }
      return AllThere;
    }

    method ProvideEach(gives: seq<Name>)
      requires Valid()
      modifies this`services, this`unavailable, this`waiters, this`settled
      ensures Valid() && View() == ProvideAll(old(View()), gives)
      ensures old(services) <= services
    {
      hide NoLostWait, AllFed, UniqueNames;
      for k := 0 to |gives|
        invariant Valid() && View() == ProvideAll(old(View()), gives[..k])
        invariant old(services) <= services
      {
        assert gives[..k + 1][..k] == gives[..k];
        Provide(gives[k]);
      }
      assert gives[..|gives|] == gives;
    }

    /**
     `startEntry` from first wait to last state change, with the outcome of `apply` given: the
     services it provides and whether it returns. A plugin with an unanswered wait stays as it is.
     */
    method StartEntry(i: nat, gives: seq<Name>, ok: bool) returns (state: PluginState)
      requires Valid() && i < |entries|
      modifies this`services, this`unavailable, this`waiters, this`settled, this`entries
      ensures Valid() && |entries| == |old(entries)|
      ensures state == StartState(old(View()), old(entries)[i], ok)
      ensures entries == WithState(old(entries), i, state)
      ensures View() == StartEffect(old(View()), old(entries)[i], gives, ok)
    {
      var e := entries[i];
      if e.state != Enabled {
        return e.state;
      }
      hide NoLostWait, Blocked, Fed;
      var wakeup := Await(e);
      match wakeup {
        case OneLost =>
          state := Fail(i);
        case Unanswered =>
          state := Enabled;
        case AllThere =>
          ProvideEach(gives);
          if ok {
            ChangeFed(services, entries, i, e.(state := Started), services);
            entries := WithState(entries, i, Started);
            state := Started;
          } else {
            state := Fail(i);
          }
      }
    }

    /** The catch branch of `startEntry`. */
    method Fail(i: nat) returns (state: PluginState)
      requires Valid() && i < |entries|
      modifies this`unavailable, this`waiters, this`settled, this`entries
      ensures Valid() && state == Failed && entries == WithState(old(entries), i, Failed)
      ensures View() == MarkAll(old(View()), old(entries)[i].plugin.declares)
    {
      ChangeFed(services, entries, i, entries[i].(state := Failed), services);
      entries := WithState(entries, i, Failed);
      MarkEach(entries[i].plugin.declares);
      return Failed;
    }

    /** Disables a plugin and everything that depends on it, and takes their services away. */
    method Disable(name: Name) returns (done: bool, ghost down: set<Name>)
      requires Valid()
      modifies this`services, this`unavailable, this`waiters, this`settled, this`entries
      ensures Valid()
      ensures done <==>
              exists e :: e in old(entries) && e.plugin.name == name && e.state != Disabled && e.state != Stopped
      ensures !done ==> View() == old(View()) && entries == old(entries)
      ensures forall x :: x in down <==> done && (x == name || Dependent(old(entries), name, x))
      ensures done ==> forall e :: e in old(entries) && e.plugin.name != name ==>
                (e.plugin.name in down <==>
                 exists f, d ::
                   f in old(entries) && f.plugin.name in down && d in f.plugin.declares && d in e.plugin.inject)
      ensures |entries| == |old(entries)|
      ensures forall i :: 0 <= i < |entries| ==>
                            var e := old(entries)[i];
                            entries[i] == if e.plugin.name in down then Entry(e.plugin, Disabled) else e
      ensures forall s :: s in services <==>
                          && s in old(services)
                          && forall e :: e in old(entries) && e.plugin.name in down ==> s !in e.plugin.declares
      ensures forall s :: s in unavailable <==>
                          || s in old(unavailable)
                          || exists e :: e in old(entries) && e.plugin.name in down && s in e.plugin.declares
      ensures OnlyGaveUp(old(View()), View())
    {
      NothingGivenUp(View());
      hide Dependent, Injects, Offered, Elems, NoLostWait, AllFed, UniqueNames;
      var at := IndexOf(entries, name);
      if at == |entries| {
        return false, {};
      }
      OneOfName(entries, at);
      if entries[at].state == Disabled || entries[at].state == Stopped {
        return false, {};
      }
      var targets := CollectDependents(entries, at);
      targets := targets + {name};
      OfferedMeaning(entries, targets);
      forall e | e in entries && e.plugin.name != name
        ensures e.plugin.name in targets <==>
                exists f, d :: f in entries && f.plugin.name in targets && d in f.plugin.declares && d in e.plugin.inject
      {
        TakenDownExactly(entries, name, targets, e);
      }
      SwitchOff(targets);
      return true, targets;
    }

    /** The loop of `disable`, last registered first. */
    method SwitchOff(targets: set<Name>)
      requires Valid()
      requires forall e :: e in entries && Injects(e, Offered(entries, targets)) ==> e.plugin.name in targets
      modifies this`services, this`unavailable, this`waiters, this`settled, this`entries
      ensures Valid()
      ensures entries == Switched(old(entries), targets)
      ensures services == old(services) - Offered(old(entries), targets)
      ensures unavailable == old(unavailable) + Offered(old(entries), targets)
      ensures OnlyGaveUp(old(View()), View())
    {
      hide OnlyGaveUp, Injects, Offered, Elems, NoLostWait, AllFed, UniqueNames;
      ghost var all, before, lost := entries, services, unavailable;
      OfferedEmpty(all[|all|..], targets);
      NothingGivenUp(View());
      var i := |entries|;
      while i > 0
        invariant 0 <= i <= |entries| && |entries| == |all|
        invariant entries == all[..i] + Switched(all, targets)[i..]
        invariant NoLostWait(View()) && OnlyGaveUp(old(View()), View())
        invariant services == before - Offered(all[i..], targets)
        invariant unavailable == lost + Offered(all[i..], targets)
      {
        i := i - 1;
        OfferedSuffix(all, i, targets);
        SpliceStep(all, Switched(all, targets), i);
        if entries[i].plugin.name in targets {
          entries := WithState(entries, i, Disabled);
          ghost var mid := View();
          RemoveServices(entries[i].plugin.declares);
          GivingUpAdds(old(View()), mid, View());
        }
      }
      assert all[0..] == all;
      assert entries == Switched(all, targets);
      SwitchFed(before, all, targets, services);
      SwitchUnique(all, targets);
    }

    /** Takes declared services out of the registry and answers their waits. */
    method RemoveServices(names: seq<Name>)
      requires NoLostWait(View())
      modifies this`services, this`unavailable, this`waiters, this`settled
      ensures NoLostWait(View()) && OnlyGaveUp(old(View()), View())
      ensures services == old(services) - Elems(names) && unavailable == old(unavailable) + Elems(names)
    {
      hide NoLostWait, OnlyGaveUp;
      NothingGivenUp(View());
      for k := 0 to |names|
        invariant NoLostWait(View()) && OnlyGaveUp(old(View()), View())
        invariant services == old(services) - Elems(names[..k]) && unavailable == old(unavailable) + Elems(names[..k])
      {
        assert names[..k + 1] == names[..k] + [names[k]];
        ghost var mid := View();
        WithdrawKeepsWaits(View(), services - {names[k]});
        services := services - {names[k]};
        WithdrawGivesUp(mid, names[k], services);
        MarkUnavailable(names[k]);
        GivingUpAdds(old(View()), mid, View());
      }
      assert names[..|names|] == names;
    }

    /**
     Enabling needs every injected service; while booting the plugin is started right away,
     with the outcome of its `apply` given.
     */
    method Enable(name: Name, gives: seq<Name>, ok: bool) returns (done: bool)
      requires Valid()
      modifies this`services, this`unavailable, this`waiters, this`settled, this`entries
      ensures Valid() && |entries| == |old(entries)|
      ensures !(exists e :: && e in old(entries) && e.plugin.name == name && e.state in {Disabled, Failed}
                           && forall d :: d in e.plugin.inject ==> d in old(services)) ==>
                !done && View() == old(View()) && entries == old(entries)
      ensures (exists e :: && e in old(entries) && e.plugin.name == name && e.state in {Disabled, Failed}
                           && forall d :: d in e.plugin.inject ==> d in old(services)) ==>
                var at := IndexOf(old(entries), name);
                var e := old(entries)[at].(state := Enabled);
                var r := old(View()).(unavailable := old(unavailable) - Elems(e.plugin.declares));
                && (done <==> booting ==> ok)
                && entries == WithState(old(entries), at, if !booting then Enabled else if ok then Started else Failed)
                && View() == if booting then StartEffect(r, e, gives, ok) else r
    {
      hide NoLostWait, StartEffect, AllFed, UniqueNames;
      var at := IndexOf(entries, name);
      if at == |entries| {
        return false;
      }
      var e := entries[at];
      OneOfName(entries, at);
      if e.state != Disabled && e.state != Failed {
        return false;
      }
      if exists dep :: dep in e.plugin.inject && dep !in services {
        return false;
      }
      for k := 0 to |e.plugin.declares|
        invariant Valid() && entries == old(entries)
        invariant View() == old(View()).(unavailable := old(unavailable) - Elems(e.plugin.declares[..k]))
      {
        assert e.plugin.declares[..k + 1] == e.plugin.declares[..k] + [e.plugin.declares[k]];
        ReliefKeepsWaits(View(), e.plugin.declares[k]);
        unavailable := unavailable - {e.plugin.declares[k]};
      }
      assert e.plugin.declares[..|e.plugin.declares|] == e.plugin.declares;
      ChangeFed(services, entries, at, e.(state := Enabled), services);
      StateUnique(entries, at, Enabled);
      entries := WithState(entries, at, Enabled);
      if booting {
        var state := StartEntry(at, gives, ok);
        return state == Started;
      }
      return true;
    }

    /**
     The marking loops of `start`: services of disabled plugins, and injected services nobody
     declares or has provided, are known never to come.
     */
    method PrepareStart()
      requires Valid()
      modifies this
      ensures Valid() && booting && entries == old(entries) && services == old(services)
      ensures forall n :: n in unavailable <==>
                || n in old(unavailable)
                || (exists e :: e in entries && e.state == Disabled && n in e.plugin.declares)
                || (&& n !in services && (exists e :: e in entries && n in e.plugin.inject)
                    && forall e :: e in entries ==> n !in e.plugin.declares)
      ensures OnlyGaveUp(old(View()), View())
      ensures old(unavailable) == {} && old(waiters) == {} ==> Prepared(View(), entries)
    {
      hide OnlyGaveUp;
      booting := true;
      var declared := MarkDisabled();
      ghost var mid := View();
      MarkUndeclared(declared);
      GivingUpAdds(old(View()), mid, View());
    }

    method MarkDisabled() returns (declared: set<Name>)
      requires Valid()
      modifies this`unavailable, this`waiters, this`settled
      ensures Valid() && waiters <= old(waiters)
      ensures OnlyGaveUp(old(View()), View())
      ensures forall n :: n in declared <==> n in services || Declared(entries, n)
      ensures forall n :: n in unavailable <==> n in old(unavailable) || GivenUp(entries, n)
    {
      hide OnlyGaveUp, NoLostWait, AllFed, UniqueNames;
      NothingGivenUp(View());
      declared := services;
      for i := 0 to |entries|
        invariant Valid() && waiters <= old(waiters) && OnlyGaveUp(old(View()), View())
        invariant forall n :: n in declared <==> n in services || Declared(entries[..i], n)
        invariant forall n :: n in unavailable <==> n in old(unavailable) || GivenUp(entries[..i], n)
      {
        assert entries[..i + 1] == entries[..i] + [entries[i]];
        declared := declared + Elems(entries[i].plugin.declares);
        if entries[i].state == Disabled {
          ghost var mid := View();
          MarkAllEffect(mid, entries[i].plugin.declares);
          MarkEach(entries[i].plugin.declares);
          MarkAllGivesUp(mid, entries[i].plugin.declares);
          GivingUpAdds(old(View()), mid, View());
        }
      }
      assert entries[..|entries|] == entries;
    }

    method MarkUndeclared(declared: set<Name>)
      requires Valid()
      modifies this`unavailable, this`waiters, this`settled
      ensures Valid() && waiters <= old(waiters)
      ensures OnlyGaveUp(old(View()), View())
      ensures forall n :: n in unavailable <==> n in old(unavailable) || (Wanted(entries, n) && n !in declared)
    {
      hide OnlyGaveUp, NoLostWait, AllFed, UniqueNames;
      NothingGivenUp(View());
      for i := 0 to |entries|
        invariant Valid() && waiters <= old(waiters) && OnlyGaveUp(old(View()), View())
        invariant forall n :: n in unavailable <==> n in old(unavailable) || (Wanted(entries[..i], n) && n !in declared)
      {
        assert entries[..i + 1] == entries[..i] + [entries[i]];
        ghost var mid := View();
        MarkMissing(entries[i].plugin.inject, declared);
        GivingUpAdds(old(View()), mid, View());
      }
      assert entries[..|entries|] == entries;
    }

    method MarkMissing(inject: seq<Name>, declared: set<Name>)
      requires Valid()
      modifies this`unavailable, this`waiters, this`settled
      ensures Valid() && waiters <= old(waiters)
      ensures OnlyGaveUp(old(View()), View())
      ensures forall n :: n in unavailable <==> n in old(unavailable) || (n in inject && n !in declared)
    {
      hide OnlyGaveUp, NoLostWait, AllFed, UniqueNames;
      NothingGivenUp(View());
      for k := 0 to |inject|
        invariant Valid() && waiters <= old(waiters) && OnlyGaveUp(old(View()), View())
        invariant forall n :: n in unavailable <==> n in old(unavailable) || (n in inject[..k] && n !in declared)
      {
        assert inject[..k + 1] == inject[..k] + [inject[k]];
        if inject[k] !in declared {
          ghost var mid := View();
          WithdrawGivesUp(mid, inject[k], services);
          MarkUnavailable(inject[k]);
          GivingUpAdds(old(View()), mid, View());
        }
      }
      assert inject[..|inject|] == inject;
    }

    /**
     The synchronous pass of `start` over all plugins; `eager` says what each plugin that
     injects nothing provides before its first await.
     */
    method StartPass(eager: map<Name, seq<Name>>)
      requires Valid()
      modifies this`services, this`unavailable, this`waiters, this`settled
      ensures Valid() && View() == PassOver(old(View()), entries, eager)
    {
      hide NoLostWait, AllFed, UniqueNames, WaitForAll, ProvideAll;
      for i := 0 to |entries|
        invariant Valid() && View() == PassOver(old(View()), entries[..i], eager)
      {
        assert entries[..i + 1][..i] == entries[..i];
        var e := entries[i];
        if e.state == Enabled {
          var _ := Await(e);
          if e.plugin.inject == [] && e.plugin.name in eager {
            ProvideEach(eager[e.plugin.name]);
          }
        }
      }
      assert entries[..|entries|] == entries;
    }

    /** Stops every started plugin; services stay registered. */
    method Stop()
      requires Valid()
      modifies this`entries, this`booting
      ensures Valid() && !booting && |entries| == |old(entries)|
      ensures forall i :: 0 <= i < |entries| ==>
                            var e := old(entries)[i];
                            entries[i] == if e.state == Started then Entry(e.plugin, Stopped) else e
    {
      hide NoLostWait, AllFed, UniqueNames;
      ghost var all := entries;
      booting := false;
      var i := |entries|;
      while i > 0
        invariant 0 <= i <= |entries| && |entries| == |all| && !booting
        invariant entries == all[..i] + Halted(all)[i..]
      {
        i := i - 1;
        SpliceStep(all, Halted(all), i);
        if entries[i].state == Started {
          entries := WithState(entries, i, Stopped);
        }
      }
      assert entries == Halted(all);
      HaltedValid(services, all);
    }
  }

  lemma NothingGivenUp(r: Registry)
    requires NoLostWait(r)
    ensures OnlyGaveUp(r, r)
  {
  }

  lemma MarkAllGivesUp(r: Registry, names: seq<Name>)
    requires NoLostWait(r)
    ensures OnlyGaveUp(r, MarkAll(r, names))
  {
    MarkAllEffect(r, names);
  }

  lemma WithdrawKeepsWaits(r: Registry, services: set<Name>)
    requires NoLostWait(r) && services <= r.services
    ensures NoLostWait(r.(services := services))
  {
  }

  lemma ReliefKeepsWaits(r: Registry, name: Name)
    requires NoLostWait(r)
    ensures NoLostWait(r.(unavailable := r.unavailable - {name}))
  {
  }

  lemma StateUnique(entries: seq<Entry>, i: nat, state: PluginState)
    requires UniqueNames(entries) && i < |entries|
    ensures UniqueNames(WithState(entries, i, state))
  {
  }

  /** The states after stopping. */
  function Halted(entries: seq<Entry>): seq<Entry> {
    seq(|entries|, i requires 0 <= i < |entries| =>
      if entries[i].state == Started then entries[i].(state := Stopped) else entries[i])
  }

  /** A backwards loop: replacing entry `i` moves the seam between old and new one to the left. */
  lemma SpliceStep(was: seq<Entry>, will: seq<Entry>, i: nat)
    requires i < |was| == |will|
    ensures (was[..i + 1] + will[i + 1..])[i] == was[i]
    ensures (was[..i + 1] + will[i + 1..])[i := will[i]] == was[..i] + will[i..]
  {
  }

  lemma HaltedValid(services: set<Name>, entries: seq<Entry>)
    requires UniqueNames(entries)
    ensures UniqueNames(Halted(entries)) && AllFed(services, Halted(entries))
  {
    forall e | e in Halted(entries)
      ensures e.state != Started
    {
      var i :| 0 <= i < |entries| && Halted(entries)[i] == e;
    }
  }

  // ---- the marking rules of start ----

  predicate Declared(entries: seq<Entry>, n: Name) {
    exists e :: e in entries && n in e.plugin.declares
  }

  predicate Wanted(entries: seq<Entry>, n: Name) {
    exists e :: e in entries && n in e.plugin.inject
  }

  /** Declared by a plugin that is switched off. */
  predicate GivenUp(entries: seq<Entry>, n: Name) {
    exists e :: e in entries && e.state == Disabled && n in e.plugin.declares
  }

  /** Injected by somebody, provided and declared by nobody. */
  predicate Orphaned(services: set<Name>, entries: seq<Entry>, n: Name) {
    Wanted(entries, n) && n !in services && !Declared(entries, n)
  }

  /** What the marking loops of `start` leave in a fresh context. */
  ghost predicate Prepared(r: Registry, entries: seq<Entry>) {
    && NoLostWait(r) && r.waiters == {}
    && forall n :: n in r.unavailable <==> GivenUp(entries, n) || Orphaned(r.services, entries, n)
  }

  lemma OneOfName(entries: seq<Entry>, at: nat)
    requires UniqueNames(entries) && at < |entries|
    ensures entries[at] in entries
    ensures forall f :: f in entries && f.plugin.name == entries[at].plugin.name ==> f == entries[at]
  {
  }

  lemma OfferedEmpty(entries: seq<Entry>, names: set<Name>)
    requires entries == []
    ensures Offered(entries, names) == {}
  {
  }

  /** The answers a starting plugin gets, read off its waits. */
  lemma Answers(start: Registry, r: Registry, e: Entry)
    requires NoLostWait(r)
    requires forall w :: StatusOf(r, w) ==
                         if w.owner == e.plugin.name && w.dep in e.plugin.inject then Verdict(start, w.dep)
                         else StatusOf(start, w)
    ensures Blocked(start, e) <==>
            exists d :: d in e.plugin.inject && Wait(e.plugin.name, d) in r.settled
                        && r.settled[Wait(e.plugin.name, d)] == Rejected
    ensures Fed(start, e) <==>
            forall d :: d in e.plugin.inject ==>
                          Wait(e.plugin.name, d) in r.settled && r.settled[Wait(e.plugin.name, d)] == Resolved
  {
    forall d | d in e.plugin.inject
      ensures StatusOf(r, Wait(e.plugin.name, d)) == Verdict(start, d)
    {
    }
  }

  lemma OfferedSuffix(entries: seq<Entry>, i: nat, names: set<Name>)
    requires i < |entries|
    ensures Offered(entries[i..], names) ==
            Offered(entries[i + 1..], names)
            + if entries[i].plugin.name in names then Elems(entries[i].plugin.declares) else {}
  {
    var suffix, rest := entries[i..], entries[i + 1..];
    assert suffix == [entries[i]] + rest;
    forall n
      ensures n in Offered(suffix, names) <==>
              n in Offered(rest, names) || (entries[i].plugin.name in names && n in entries[i].plugin.declares)
    {
      if k :| 0 <= k < |rest| && rest[k].plugin.name in names && n in rest[k].plugin.declares {
        assert suffix[k + 1] == rest[k];
      }
      if k :| 0 <= k < |suffix| && suffix[k].plugin.name in names && n in suffix[k].plugin.declares {
        assert k > 0 ==> rest[k - 1] == suffix[k];
      }
    }
  }
}
