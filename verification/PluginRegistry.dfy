/**
 The service registry of the plugin runtime: what is provided, what is known never to come,
 and who is still waiting. A wait is one promise, named by the plugin that waits and the
 service it waits for; values of services do not matter here, only their presence.
 */
module PluginRegistry {

  type Name = string

  datatype Wait = Wait(owner: Name, dep: Name)
  datatype Outcome = Resolved | Rejected

  datatype Registry = Registry(
    services: set<Name>, unavailable: set<Name>, waiters: set<Wait>, settled: map<Wait, Outcome>)

  /** The waits on `name`, all settled the same way. */
  function SettleAll(waiters: set<Wait>, name: Name, outcome: Outcome): map<Wait, Outcome> {
    map w | w in waiters && w.dep == name :: outcome
  }

  function Remaining(waiters: set<Wait>, name: Name): set<Wait> {
    set w | w in waiters && w.dep != name
  }

  function Provide(r: Registry, name: Name): Registry {
    Registry(r.services + {name}, r.unavailable - {name}, Remaining(r.waiters, name),
             r.settled + SettleAll(r.waiters, name, Resolved))
  }

  function MarkUnavailable(r: Registry, name: Name): Registry {
    Registry(r.services, r.unavailable + {name}, Remaining(r.waiters, name),
             r.settled + SettleAll(r.waiters, name, Rejected))
  }

  /** A new wait: settled at once when the answer is known, pending otherwise. */
  function WaitFor(r: Registry, w: Wait): Registry {
    if w.dep in r.services then r.(settled := r.settled[w := Resolved], waiters := r.waiters - {w})
    else if w.dep in r.unavailable then r.(settled := r.settled[w := Rejected], waiters := r.waiters - {w})
    else r.(waiters := r.waiters + {w}, settled := r.settled - {w})
  }

  function WaitForAll(r: Registry, owner: Name, deps: seq<Name>): Registry {
    if deps == [] then r
    else WaitFor(WaitForAll(r, owner, deps[..|deps| - 1]), Wait(owner, deps[|deps| - 1]))
  }

  function ProvideAll(r: Registry, names: seq<Name>): Registry {
    if names == [] then r
    else Provide(ProvideAll(r, names[..|names| - 1]), names[|names| - 1])
  }

  function MarkAll(r: Registry, names: seq<Name>): Registry {
    if names == [] then r
    else MarkUnavailable(MarkAll(r, names[..|names| - 1]), names[|names| - 1])
  }

  /**
   No wait is pending on a service that is already provided or known never to come, and no
   settled wait is still pending.
   */
  ghost predicate NoLostWait(r: Registry) {
    forall w :: w in r.waiters ==> w.dep !in r.services && w.dep !in r.unavailable && w !in r.settled
  }

  lemma OperationsLoseNoWait(r: Registry, name: Name, w: Wait)
    requires NoLostWait(r)
    ensures NoLostWait(Provide(r, name))
    ensures NoLostWait(MarkUnavailable(r, name))
    ensures NoLostWait(WaitFor(r, w))
  {
  }

  /** Providing and giving up change one name and settle exactly the waits on it; a new wait changes itself alone. */
  lemma OperationsMeaning(r: Registry, name: Name, w: Wait)
    requires NoLostWait(r)
    ensures
      var p := Provide(r, name);
      && p.services == r.services + {name} && p.unavailable == r.unavailable - {name}
      && p.waiters == (set v | v in r.waiters && v.dep != name)
      && p.settled.Keys == r.settled.Keys + (set v | v in r.waiters && v.dep == name)
      && forall v :: v in p.settled ==> p.settled[v] == if v in r.waiters then Resolved else r.settled[v]
    ensures
      var m := MarkUnavailable(r, name);
      && m.services == r.services && m.unavailable == r.unavailable + {name}
      && m.waiters == (set v | v in r.waiters && v.dep != name)
      && m.settled.Keys == r.settled.Keys + (set v | v in r.waiters && v.dep == name)
      && forall v :: v in m.settled ==> m.settled[v] == if v in r.waiters then Rejected else r.settled[v]
    ensures
      var a := WaitFor(r, w);
      && a.services == r.services && a.unavailable == r.unavailable
      && a.waiters - {w} == r.waiters - {w} && a.settled - {w} == r.settled - {w}
      && (w in a.waiters <==> w.dep !in r.services && w.dep !in r.unavailable)
      && (w in a.settled <==> w.dep in r.services || w.dep in r.unavailable)
      && (w in a.settled ==> (a.settled[w] == Resolved <==> w.dep in r.services))
  {
  }

  datatype Status = Unknown | Pending | Done(outcome: Outcome)

  function StatusOf(r: Registry, w: Wait): Status {
    if w in r.waiters then Pending else if w in r.settled then Done(r.settled[w]) else Unknown
  }

  /** The answer a wait on `dep` gets when it is made. */
  function Verdict(r: Registry, dep: Name): Status {
    if dep in r.services then Done(Resolved) else if dep in r.unavailable then Done(Rejected) else Pending
  }

  /** Providing a service answers exactly the pending waits on it, positively. */
  lemma ProvideEffect(r: Registry, name: Name, w: Wait)
    requires NoLostWait(r)
    ensures StatusOf(Provide(r, name), w) ==
            if StatusOf(r, w) == Pending && w.dep == name then Done(Resolved) else StatusOf(r, w)
  {
  }

  /** From `r` to `r'` some services were given up, and only waits on those were answered, negatively. */
  ghost predicate OnlyGaveUp(r: Registry, r': Registry) {
    && r.unavailable <= r'.unavailable
    && forall w :: StatusOf(r', w) ==
                   if StatusOf(r, w) == Pending && w.dep in r'.unavailable then Done(Rejected) else StatusOf(r, w)
  }

  lemma GaveUpMeaning(r: Registry, r': Registry)
    requires NoLostWait(r) && NoLostWait(r') && OnlyGaveUp(r, r')
    ensures forall w :: w in r'.waiters <==> w in r.waiters && w.dep !in r'.unavailable
    ensures forall w :: w in r'.settled <==> w in r.settled || (w in r.waiters && w.dep in r'.unavailable)
    ensures forall w :: w in r'.settled ==> r'.settled[w] == if w in r.waiters then Rejected else r.settled[w]
  {
    forall w
      ensures w in r'.waiters <==> w in r.waiters && w.dep !in r'.unavailable
      ensures w in r'.settled <==> w in r.settled || (w in r.waiters && w.dep in r'.unavailable)
      ensures w in r'.settled ==> r'.settled[w] == if w in r.waiters then Rejected else r.settled[w]
    {
      assert StatusOf(r', w) ==
             if StatusOf(r, w) == Pending && w.dep in r'.unavailable then Done(Rejected) else StatusOf(r, w);
    }
  }

  lemma GivingUpAdds(a: Registry, b: Registry, c: Registry)
    requires OnlyGaveUp(a, b) && OnlyGaveUp(b, c)
    ensures OnlyGaveUp(a, c)
  {
    hide StatusOf;
  }

  /** Withdrawing a service and giving it up. */
  lemma WithdrawGivesUp(r: Registry, name: Name, services: set<Name>)
    requires NoLostWait(r) && services <= r.services
    ensures OnlyGaveUp(r, MarkUnavailable(r.(services := services), name))
  {
  }

  function Elems(names: seq<Name>): set<Name> {
    set n | n in names
  }

  /** Giving services up answers exactly the pending waits on them, negatively. */
  lemma {:induction false} MarkAllEffect(r: Registry, names: seq<Name>)
    requires NoLostWait(r)
    ensures NoLostWait(MarkAll(r, names))
    ensures MarkAll(r, names).services == r.services
    ensures MarkAll(r, names).unavailable == r.unavailable + Elems(names)
    ensures forall w :: StatusOf(MarkAll(r, names), w) ==
                        if StatusOf(r, w) == Pending && w.dep in names then Done(Rejected) else StatusOf(r, w)
  {
    if names != [] {
      var front, last := names[..|names| - 1], names[|names| - 1];
      MarkAllEffect(r, front);
      assert names == front + [last];
    }
  }

  lemma {:induction false} ProvideAllEffect(r: Registry, names: seq<Name>)
    ensures ProvideAll(r, names).services == r.services + Elems(names)
    ensures ProvideAll(r, names).unavailable == r.unavailable - Elems(names)
  {
    if names != [] {
      var front, last := names[..|names| - 1], names[|names| - 1];
      ProvideAllEffect(r, front);
      assert names == front + [last];
    }
  }

  /** A plugin that starts waits for all its injected services at once. */
  lemma {:induction false} WaitForAllEffect(r: Registry, owner: Name, deps: seq<Name>)
    requires NoLostWait(r)
    ensures NoLostWait(WaitForAll(r, owner, deps))
    ensures WaitForAll(r, owner, deps).services == r.services
    ensures WaitForAll(r, owner, deps).unavailable == r.unavailable
    ensures forall w :: StatusOf(WaitForAll(r, owner, deps), w) ==
                        if w.owner == owner && w.dep in deps then Verdict(r, w.dep) else StatusOf(r, w)
  {
    if deps != [] {
      var front, last := deps[..|deps| - 1], deps[|deps| - 1];
      WaitForAllEffect(r, owner, front);
      assert deps == front + [last];
    }
  }
}
