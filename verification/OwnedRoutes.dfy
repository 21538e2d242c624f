/**
  The routes a translated Service, Ingress or HTTPRoute owns (internal/controller/cluster_routes.go): create
  and update what is wanted, delete what is not, and keep off everybody else's objects.
 */
module OwnedRoutes {

  datatype Spec = Spec(routerRef: string, destination: string, gateway: string)

  datatype Option<T> = None | Some(value: T)

  /** A route object: the UID of its controlling owner, its two labels ("" when absent) and its spec. */
  datatype Object = Object(controller: Option<string>, source: string, origin: string, spec: Spec)

  datatype Candidate = Candidate(name: string, destination: string, gateway: string, origin: string)

  /** The parameters of one reconciliation: the owner's UID, its router and its source label. */
  datatype Request = Request(owner: string, routerRef: string, source: string)

  predicate Owned(o: Object, q: Request) {
    o.controller == Some(q.owner)
  }

  function SpecOf(c: Candidate, q: Request): Spec {
    Spec(q.routerRef, c.destination, c.gateway)
  }

  /** The object is as the candidate wants it; the source label is not looked at. */
  predicate UpToDate(o: Object, c: Candidate, q: Request) {
    o.spec == SpecOf(c, q) && o.origin == c.origin
  }

  predicate DistinctNames(cs: seq<Candidate>) {
    forall i, j :: 0 <= i < j < |cs| ==> cs[i].name != cs[j].name
  }

  predicate Names(cs: seq<Candidate>, name: string) {
    exists i :: 0 <= i < |cs| && cs[i].name == name
  }

  /** The owner's children are exactly the candidates. */
  predicate Settled(routes: map<string, Object>, cs: seq<Candidate>, q: Request) {
    && (forall c :: c in cs ==> c.name in routes && Owned(routes[c.name], q) && UpToDate(routes[c.name], c, q))
    && (forall name :: name in routes && Owned(routes[name], q) ==> Names(cs, name))
  }

  /** Objects of others are all there, unchanged, and every new object is the owner's. */
  predicate OthersKept(routes: map<string, Object>, routes': map<string, Object>, q: Request) {
    && (forall name :: name in routes && !Owned(routes[name], q) ==> name in routes' && routes'[name] == routes[name])
    && (forall name :: name in routes' && !Owned(routes'[name], q) ==> name in routes && routes'[name] == routes[name])
  }

  /** What one candidate makes of the object that has its name. */
  function Written(found: Option<Object>, c: Candidate, q: Request): Object {
    match found
    case None => Object(Some(q.owner), q.source, c.origin, SpecOf(c, q))
    case Some(o) => if UpToDate(o, c, q) then o else Object(o.controller, q.source, c.origin, SpecOf(c, q))
  }

  function Find(routes: map<string, Object>, name: string): Option<Object> {
    if name in routes then Some(routes[name]) else None
  }

  /** A candidate's name is taken by an object of somebody else. */
  predicate Taken(routes: map<string, Object>, cs: seq<Candidate>, q: Request) {
    exists i :: 0 <= i < |cs| && cs[i].name in routes && !Owned(routes[cs[i].name], q)
  }

  /** The store after the create-or-update loop. */
  function AfterApply(routes: map<string, Object>, cs: seq<Candidate>, q: Request): map<string, Object> {
    if cs == [] then routes
    else
      var c, before := cs[|cs| - 1], AfterApply(routes, cs[..|cs| - 1], q);
      before[c.name := Written(Find(before, c.name), c, q)]
  }

  /** A child that is not wanted any more. */
  predicate Stray(o: Object, name: string, cs: seq<Candidate>, q: Request) {
    Owned(o, q) && !Names(cs, name)
  }

  /** The store after deleting the strays among `listed`. */
  function AfterSweep(
    routes: map<string, Object>, listed: map<string, Object>, cs: seq<Candidate>, q: Request): map<string, Object>
  {
    map name | name in routes && !(name in listed && Stray(listed[name], name, cs, q)) :: routes[name]
  }

  function Reconciled(routes: map<string, Object>, cs: seq<Candidate>, q: Request): map<string, Object> {
    AfterSweep(AfterApply(routes, cs, q), routes, cs, q)
  }

  /* ---- Facts about the specification ---- */

  lemma {:induction false} ApplyElsewhere(routes: map<string, Object>, cs: seq<Candidate>, q: Request, name: string)
    requires !Names(cs, name)
    ensures Find(AfterApply(routes, cs, q), name) == Find(routes, name)
    decreases |cs|
  {
    if cs != [] {
      var front := cs[..|cs| - 1];
      assert cs[|cs| - 1].name != name;
      assert forall i :: 0 <= i < |front| ==> front[i] == cs[i];
      ApplyElsewhere(routes, front, q, name);
    }
  }

  lemma {:induction false} ApplyAt(routes: map<string, Object>, cs: seq<Candidate>, q: Request, k: nat)
    requires DistinctNames(cs) && k < |cs|
    ensures Find(AfterApply(routes, cs, q), cs[k].name) == Some(Written(Find(routes, cs[k].name), cs[k], q))
    decreases |cs|
  {
    var front, last := cs[..|cs| - 1], cs[|cs| - 1];
    if k < |front| {
      ApplyAt(routes, front, q, k);
      assert front[k] == cs[k] && cs[k].name != last.name;
    } else {
      assert !Names(front, last.name);
      ApplyElsewhere(routes, front, q, last.name);
    }
  }

  /** With no name taken, the outcome is what was asked for: the owner's children are the candidates. */
  lemma ReconciledIsSettled(routes: map<string, Object>, cs: seq<Candidate>, q: Request)
    requires DistinctNames(cs) && !Taken(routes, cs, q)
    ensures Settled(Reconciled(routes, cs, q), cs, q)
  {
    var applied, end := AfterApply(routes, cs, q), Reconciled(routes, cs, q);
    forall c | c in cs ensures c.name in end && Owned(end[c.name], q) && UpToDate(end[c.name], c, q) {
      var k :| 0 <= k < |cs| && cs[k] == c;
      ApplyAt(routes, cs, q, k);
      assert Names(cs, c.name);
      assert end[c.name] == applied[c.name];
    }
    forall name | name in end && Owned(end[name], q) ensures Names(cs, name) {
      if !Names(cs, name) { ApplyElsewhere(routes, cs, q, name); }
    }
  }

  /** A settled store is left as it is. */
  lemma {:induction false} SettledApply(routes: map<string, Object>, all: seq<Candidate>, cs: seq<Candidate>, q: Request)
    requires Settled(routes, all, q) && forall c :: c in cs ==> c in all
    ensures AfterApply(routes, cs, q) == routes
    decreases |cs|
  {
    if cs != [] {
      SettledApply(routes, all, cs[..|cs| - 1], q);
      assert cs[|cs| - 1] in all;
    }
  }

  lemma SettledStays(routes: map<string, Object>, cs: seq<Candidate>, q: Request)
    requires Settled(routes, cs, q)
    ensures Reconciled(routes, cs, q) == routes
  {
    SettledApply(routes, cs, cs, q);
  }

  /** Reconciling again changes nothing. */
  lemma ReconcileTwice(routes: map<string, Object>, cs: seq<Candidate>, q: Request)
    requires DistinctNames(cs) && !Taken(routes, cs, q)
    ensures Reconciled(Reconciled(routes, cs, q), cs, q) == Reconciled(routes, cs, q)
  {
    ReconciledIsSettled(routes, cs, q);
    SettledStays(Reconciled(routes, cs, q), cs, q);
  }

  lemma KeptTransitive(a: map<string, Object>, b: map<string, Object>, c: map<string, Object>, q: Request)
    requires OthersKept(a, b, q) && OthersKept(b, c, q)
    ensures OthersKept(a, c, q)
  {
  }

  class Store {
    var routes: map<string, Object>
    var writes: nat

    constructor (initial: map<string, Object>)
      ensures routes == initial && writes == 0
    {
      routes, writes := initial, 0;
    }

    /** Any call may fail; a failed write may or may not have been stored. */
    method Get(name: string) returns (ok: bool, found: Option<Object>)
      ensures ok ==> found == Find(routes, name)
    {
      ok := *;
      found := Find(routes, name);
    }

    method List() returns (ok: bool, items: map<string, Object>)
      ensures ok ==> items == routes
    {
      ok := *;
      items := routes;
    }

    method Put(name: string, o: Object) returns (ok: bool)
      modifies this
      ensures writes == old(writes) + 1
      ensures routes == old(routes)[name := o] || (!ok && routes == old(routes))
    {
      var stored := *;
      ok := *;
      ok := ok && stored;
      writes := writes + 1;
      if stored { routes := routes[name := o]; }
    }

    method Remove(name: string) returns (ok: bool)
      modifies this
      ensures writes == old(writes) + 1
      ensures routes == old(routes) - {name} || (!ok && routes == old(routes))
    {
      var stored := *;
      ok := *;
      ok := ok && stored;
      writes := writes + 1;
      if stored { routes := routes - {name}; }
    }

    /** The create-or-update loop. */
    method Apply(cs: seq<Candidate>, q: Request) returns (ok: bool)
      requires DistinctNames(cs)
      modifies this
      ensures OthersKept(old(routes), routes, q)
      ensures ok ==> !Taken(old(routes), cs, q) && routes == AfterApply(old(routes), cs, q)
      ensures Settled(old(routes), cs, q) ==> routes == old(routes) && writes == old(writes)
    {
      ok := true;
      ghost var start, quiet := routes, Settled(routes, cs, q);
      for i := 0 to |cs|
        invariant ok && routes == AfterApply(start, cs[..i], q) && !Taken(start, cs[..i], q)
        invariant OthersKept(start, routes, q)
        invariant quiet ==> routes == start && writes == old(writes)
      {
        NextCandidate(start, cs, i, q);
        if quiet { SettledCandidate(start, cs, i, q); }
        ok := ApplyOne(cs[i], q, start);
        if !ok { return; }
      }
      assert cs[..|cs|] == cs;
    }

    /** One turn of that loop. */
    method ApplyOne(c: Candidate, q: Request, ghost start: map<string, Object>) returns (ok: bool)
      requires OthersKept(start, routes, q)
      modifies this
      ensures OthersKept(start, routes, q)
      ensures ok ==> (c.name in old(routes) ==> Owned(old(routes)[c.name], q))
      ensures ok ==> routes == old(routes)[c.name := Written(Find(old(routes), c.name), c, q)]
      ensures c.name in old(routes) && UpToDate(old(routes)[c.name], c, q) ==> routes == old(routes) && writes == old(writes)
    {
      var found;
      ok, found := Get(c.name);
      if !ok { return; }
      if found == None {
        ok := Put(c.name, Object(Some(q.owner), q.source, c.origin, SpecOf(c, q)));
        KeptTransitive(start, old(routes), routes, q);
        return;
      }
      if !Owned(found.value, q) {
        return false;
      }
      if UpToDate(found.value, c, q) {
        assert routes[c.name := found.value] == routes;
        return;
      }
      ok := Put(c.name, Object(found.value.controller, q.source, c.origin, SpecOf(c, q)));
      KeptTransitive(start, old(routes), routes, q);
    }

    /** The deletion loop, over a list taken before the first loop. */
    method Sweep(cs: seq<Candidate>, q: Request, listed: map<string, Object>) returns (ok: bool)
      requires forall name :: name in listed && !Names(cs, name) ==> Find(routes, name) == Some(listed[name])
      modifies this
      ensures OthersKept(old(routes), routes, q)
      ensures ok ==> routes == AfterSweep(old(routes), listed, cs, q)
      ensures (forall name :: name in listed ==> !Stray(listed[name], name, cs, q)) ==>
        routes == old(routes) && writes == old(writes)
    {
      ok := true;
      var todo := listed.Keys;
      ghost var done: map<string, Object> := map[];
      ghost var start, quiet := routes, forall name :: name in listed ==> !Stray(listed[name], name, cs, q);
      while todo != {}
        invariant ok && todo <= listed.Keys && done == listed - todo
        invariant routes == AfterSweep(start, done, cs, q) && OthersKept(start, routes, q)
        invariant quiet ==> routes == start && writes == old(writes)
        decreases |todo|
      {
        var name :| name in todo;
        todo := todo - {name};
        SweepOne(start, done, name, listed[name], cs, q);
        done := done[name := listed[name]];
        if !Stray(listed[name], name, cs, q) {
          continue;
        }
        ok := RemoveStray(name, cs, q, start);
        if !ok { return; }
      }
    }

    method RemoveStray(name: string, cs: seq<Candidate>, q: Request, ghost start: map<string, Object>) returns (ok: bool)
      requires OthersKept(start, routes, q) && (name in routes ==> Owned(routes[name], q))
      modifies this
      ensures OthersKept(start, routes, q)
      ensures ok ==> routes == old(routes) - {name}
    {
      ok := Remove(name);
      KeptTransitive(start, old(routes), routes, q);
    }

    /** reconcileOwnedClusterRoutes, once the candidates are known. */
    method Reconcile(cs: seq<Candidate>, q: Request) returns (ok: bool)
      requires DistinctNames(cs)
      modifies this
      ensures OthersKept(old(routes), routes, q)
      ensures ok ==> !Taken(old(routes), cs, q) && routes == Reconciled(old(routes), cs, q) && Settled(routes, cs, q)
      ensures Settled(old(routes), cs, q) ==> routes == old(routes) && writes == old(writes)
    {
      var listed;
      ok, listed := List();
      if !ok { return; }
      ok := Apply(cs, q);
      if !ok { return; }
      forall name | name in listed && !Names(cs, name) ensures Find(routes, name) == Some(listed[name]) {
        ApplyElsewhere(listed, cs, q, name);
      }
      ReconciledIsSettled(listed, cs, q);
      ghost var before := routes;
      ok := Sweep(cs, q, listed);
      KeptTransitive(old(routes), before, routes, q);
    }
  }

  /* ---- Facts about the loops ---- */

  lemma NextCandidate(routes: map<string, Object>, cs: seq<Candidate>, i: nat, q: Request)
    requires DistinctNames(cs) && i < |cs|
    ensures var now, c := AfterApply(routes, cs[..i], q), cs[i];
      && Find(now, c.name) == Find(routes, c.name)
      && AfterApply(routes, cs[..i + 1], q) == now[c.name := Written(Find(now, c.name), c, q)]
      && (Taken(routes, cs[..i + 1], q) <==> Taken(routes, cs[..i], q) || (c.name in routes && !Owned(routes[c.name], q)))
  {
    var front, more := cs[..i], cs[..i + 1];
    assert !Names(front, cs[i].name);
    ApplyElsewhere(routes, front, q, cs[i].name);
    assert more[..|more| - 1] == front && more[|more| - 1] == cs[i];
    TakenSnoc(routes, cs, i, q);
  }

  lemma TakenSnoc(routes: map<string, Object>, cs: seq<Candidate>, i: nat, q: Request)
    requires i < |cs|
    ensures Taken(routes, cs[..i + 1], q) <==>
      Taken(routes, cs[..i], q) || (cs[i].name in routes && !Owned(routes[cs[i].name], q))
  {
    var front, more := cs[..i], cs[..i + 1];
    if Taken(routes, front, q) {
      var k :| 0 <= k < |front| && front[k].name in routes && !Owned(routes[front[k].name], q);
      assert more[k] == front[k];
    }
    if Taken(routes, more, q) {
      var k :| 0 <= k < |more| && more[k].name in routes && !Owned(routes[more[k].name], q);
      if k < i { assert front[k] == more[k]; }
    }
    if cs[i].name in routes && !Owned(routes[cs[i].name], q) { assert more[i] == cs[i]; }
  }

  lemma SettledCandidate(routes: map<string, Object>, cs: seq<Candidate>, i: nat, q: Request)
    requires Settled(routes, cs, q) && i < |cs|
    ensures cs[i].name in routes && Owned(routes[cs[i].name], q) && UpToDate(routes[cs[i].name], cs[i], q)
  {
    assert cs[i] in cs;
  }

  lemma SweepOne(
    routes: map<string, Object>, done: map<string, Object>, name: string, o: Object, cs: seq<Candidate>, q: Request)
    requires name !in done
    ensures var more := done[name := o];
      AfterSweep(routes, more, cs, q) ==
        if Stray(o, name, cs, q) then AfterSweep(routes, done, cs, q) - {name} else AfterSweep(routes, done, cs, q)
  {
  }

  /* ---- In terms of the fields ---- */

  /** The route object has these fields. */
  predicate Shown(o: Object, c: Candidate, q: Request) {
    && o.controller == Some(q.owner)
    && o.spec.routerRef == q.routerRef
    && o.spec.destination == c.destination
    && o.spec.gateway == c.gateway
    && o.origin == c.origin
  }

  /**
    Every candidate has its route with these fields.  One that was there like this stays as it is; any other gets the
    source label too.
   */
  lemma ChildrenAre(routes: map<string, Object>, cs: seq<Candidate>, q: Request, c: Candidate)
    requires DistinctNames(cs) && !Taken(routes, cs, q) && c in cs
    ensures var end := Reconciled(routes, cs, q);
      && c.name in end && Shown(end[c.name], c, q)
      && (if c.name in routes && Shown(routes[c.name], c, q) then end[c.name] == routes[c.name]
          else end[c.name].source == q.source)
  {
    ReconciledIsSettled(routes, cs, q);
    var k :| 0 <= k < |cs| && cs[k] == c;
    ApplyAt(routes, cs, q, k);
    assert Names(cs, c.name);
  }
}
