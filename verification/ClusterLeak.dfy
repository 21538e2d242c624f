/**
  Three runs from the empty cluster that leave an entry behind for good, one for each risky step: an endpoint
  moves to another MikroTikRouter before the first has swept it, a Secret is deleted before a cleanup needs it,
  and an endpoint gets a blank Secret name after its router has been validated.
 */
module ClusterLeak {
  import opened Text
  import opened Targets
  import opened Cluster
  import opened ClusterSafety
  import opened ClusterRuns
  import opened ClusterTheorems
  import opened RoutePasses

  const EMPTY := State(0, map[], map[], {}, map[], {}, map[], map[])

  ghost predicate Reach(t: State) {
    exists steps :: IsRun(EMPTY, steps) && After(EMPTY, steps) == t
  }

  lemma OneStep(t: State, step: Step)
    requires Enabled(t, step)
    ensures IsRun(t, [step]) && After(t, [step]) == Next(t, step)
  {
    var u := Next(t, step);
    assert [step][0] == step && [step][1..] == [];
    assert IsRun(u, []) && After(u, []) == u;
  }

  lemma Extend(t: State, step: Step)
    requires Reach(t) && Enabled(t, step)
    ensures Reach(Next(t, step))
  {
    var steps :| IsRun(EMPTY, steps) && After(EMPTY, steps) == t;
    OneStep(t, step);
    RunConcat(EMPTY, steps, [step]);
  }

  lemma ExtendLeads(t: State, o: Key, u: State)
    requires Reach(t) && Leads(t, o, u)
    ensures Reach(u)
  {
    var steps :| IsRun(EMPTY, steps) && After(EMPTY, steps) == t;
    var more :| Path(t, o, more, u);
    RunConcat(EMPTY, steps, more);
  }

  /** Every worker is between passes. */
  ghost predicate Quiet(s: State) {
    (forall o :: ObjPcOf(s, o).Idle?) && (forall r :: RouterPcOf(s, r).RIdle?)
  }

  lemma QuietSame(s: State, t: State)
    requires Quiet(s) && t.opcs == s.opcs && t.rpcs == s.rpcs
    ensures Quiet(t)
  {
    assert forall o :: ObjPcOf(t, o) == ObjPcOf(s, o);
    assert forall r :: RouterPcOf(t, r) == RouterPcOf(s, r);
  }

  lemma UserCreatesObj(s: State, o: Key, ref: string, next: Obj)
    requires Reach(s) && Quiet(s) && o !in s.objs && ValidKey(o)
    requires next == Obj(0, false, false, true, ref, "", "", false)
    ensures Reach(StoreObj(s, o, next)) && Quiet(StoreObj(s, o, next))
  {
    Extend(s, CreateObj(o, true, ref));
    QuietSame(s, StoreObj(s, o, next));
  }

  lemma UserDeletesObj(s: State, o: Key)
    requires Reach(s) && Quiet(s) && o in s.objs
    ensures var t := StoreObj(s, o, s.objs[o].(deleting := true)); Reach(t) && Quiet(t)
  {
    Extend(s, DeleteObj(o));
    QuietSame(s, StoreObj(s, o, s.objs[o].(deleting := true)));
  }

  lemma UserCreatesRouter(s: State, r: Key, e: Endpoint)
    requires Reach(s) && Quiet(s) && r !in s.routers && ValidKey(r)
    ensures var t := StoreRouter(s, r, Router(0, false, false, [e], [])); Reach(t) && Quiet(t)
  {
    Extend(s, CreateRouter(r, [e]));
    QuietSame(s, StoreRouter(s, r, Router(0, false, false, [e], [])));
  }

  lemma UserEditsRouter(s: State, r: Key, e: Endpoint)
    requires Reach(s) && Quiet(s) && r in s.routers
    ensures var t := StoreRouter(s, r, s.routers[r].(spec := [e])); Reach(t) && Quiet(t)
  {
    Extend(s, EditRouter(r, [e]));
    QuietSame(s, StoreRouter(s, r, s.routers[r].(spec := [e])));
  }

  lemma UserCreatesSecret(s: State, k: Key)
    requires Reach(s) && Quiet(s) && k !in s.secrets
    ensures var t := s.(secrets := s.secrets + {k}); Reach(t) && Quiet(t)
  {
    Extend(s, CreateSecret(k));
    QuietSame(s, s.(secrets := s.secrets + {k}));
  }

  lemma UserDeletesSecret(s: State, k: Key)
    requires Reach(s) && Quiet(s) && k in s.secrets
    ensures var t := s.(secrets := s.secrets - {k}); Reach(t) && Quiet(t)
  {
    Extend(s, DeleteSecret(k));
    QuietSame(s, s.(secrets := s.secrets - {k}));
  }

  lemma RMoved(s: State, r: Key, a: RouterPc, b: RouterPc)
    ensures AtRouter(AtRouter(s, r, a), r, b) == AtRouter(s, r, b) && RouterPcOf(AtRouter(s, r, a), r) == a
  {
    assert s.rpcs[r := a][r := b] == s.rpcs[r := b];
  }

  /** The read and the decision that open a pass of a router's worker. */
  lemma RouterOpens(s: State, r: Key)
    requires Reach(s) && RouterPcOf(s, r).RIdle? && r in s.routers
    ensures Reach(AtRouter(s, r, DecideRouterPc(s.routers[r], true)))
  {
    var snap := s.routers[r];
    Extend(s, GetRouter(r));
    RMoved(s, r, RRead(snap), DecideRouterPc(snap, true));
    Extend(AtRouter(s, r, RRead(snap)), DecideRouter(r, true));
  }

  /** The write that closes it. */
  lemma RouterStores(s: State, r: Key, pc: RouterPc)
    requires Reach(AtRouter(s, r, pc)) && pc.RPut? && r in s.routers && s.routers[r].rv == pc.snap.rv
    ensures Reach(AtRouter(StoreRouter(s, r, pc.next), r, RIdle))
  {
    var b := AtRouter(s, r, pc);
    Extend(b, StoreRouterOk(r));
    StoreIgnoresPc(s, r, pc);
  }

  lemma StoreIgnoresPc(s: State, r: Key, pc: RouterPc)
    requires pc.RPut?
    ensures AtRouter(StoreRouter(AtRouter(s, r, pc), r, pc.next), r, RIdle) == AtRouter(StoreRouter(s, r, pc.next), r, RIdle)
  {
    RMoved(s, r, pc, RIdle);
    assert Abandoned(AtRouter(s, r, pc), r, pc.next) == Abandoned(s, r, pc.next);
  }

  lemma QuietAfter(s: State, t: State, r: Key)
    requires Quiet(s) && t.opcs == s.opcs && t.rpcs == s.rpcs[r := RIdle]
    ensures Quiet(t)
  {
    assert forall o :: ObjPcOf(t, o) == ObjPcOf(s, o);
    assert forall q :: q != r ==> RouterPcOf(t, q) == RouterPcOf(s, q);
  }

  /** A pass of a router's worker that ends with its first write. */
  lemma RouterWrites(s: State, r: Key)
    requires Reach(s) && Quiet(s) && r in s.routers && DecideRouterPc(s.routers[r], true).RPut?
    ensures var t := AtRouter(StoreRouter(s, r, DecideRouterPc(s.routers[r], true).next), r, RIdle);
      Reach(t) && Quiet(t)
  {
    var pc := DecideRouterPc(s.routers[r], true);
    RouterOpens(s, r);
    RouterStores(s, r, pc);
    QuietAfter(s, AtRouter(StoreRouter(s, r, pc.next), r, RIdle), r);
  }

  const A := Key("n", "a")
  const B := Key("n", "b")
  const O := Key("n", "o")
  const E := Endpoint("e", "s")
  const F := Endpoint("f", "s")

  /** An endpoint on device e whose Secret name is blank. */
  const BLANK := Endpoint("e", " ")

  const SECRET := Key("n", "s")

  lemma Names()
    ensures ValidKey(A) && ValidKey(B) && ValidKey(O) && Dialable(E) && Dialable(F) && !Dialable(BLANK)
    ensures Keys([E]) == {"e"} && Keys([F]) == {"f"} && Keys([E, F]) == {"e", "f"} && Keys([]) == {}
  {
    Usables();
    assert Keys([E, F]) == Keys([E]) + Keys([F]);
  }

  lemma Usables()
    ensures Dialable(E) && Dialable(F) && !Dialable(BLANK)
  {
    TrimTrimmed("s");
    BlankName();
  }

  lemma ReferenceToA()
    ensures RefStorage(O.ns, A) == A.name && KeyFromRef(O.ns, A.name) == A
  {
    Names();
    RefRoundTrip(O.ns, A);
  }

  lemma BlankName()
    ensures TrimSpace(" ") == []
  {
    TrimSpaceCuts(" ");
  }

  /** Only router A exists, and the Secret it uses. */
  ghost predicate OnlyA(s: State, finalizer: bool, applied: seq<Endpoint>) {
    && Reach(s) && Quiet(s) && s.objs == map[] && s.dev == map[] && s.secrets == {SECRET}
    && s.routers.Keys == {A} && s.routers[A] == Router(s.routers[A].rv, finalizer, false, [E], applied)
  }

  lemma Created() returns (s: State)
    ensures OnlyA(s, false, [])
  {
    Names();
    assert IsRun(EMPTY, []) && After(EMPTY, []) == EMPTY;
    assert Quiet(EMPTY);
    UserCreatesSecret(EMPTY, SECRET);
    var m := EMPTY.(secrets := EMPTY.secrets + {SECRET});
    UserCreatesRouter(m, A, E);
    s := StoreRouter(m, A, Router(0, false, false, [E], []));
    assert {} + {SECRET} == {SECRET};
  }

  /** A pass that stores `next` for router A. */
  lemma PassOfA(s: State, finalizer: bool, applied: seq<Endpoint>, next: Router) returns (t: State)
    requires OnlyA(s, finalizer, applied)
    requires next.finalizer && !next.deleting && next.spec == [E] && DecideRouterPc(s.routers[A], true) == RPut(s.routers[A], next, {}, {}, false)
    ensures OnlyA(t, true, next.applied)
  {
    RouterWrites(s, A);
    t := AtRouter(StoreRouter(s, A, next), A, RIdle);
  }

  lemma UnionOfOne()
    ensures EndpointUnion([], [E]) == [E]
  {
    assert [E][1..] == [];
    assert Upsert([], E) == [E];
    assert UpsertAll([], [E]) == UpsertAll([E], []);
  }

  /** Router A manages device e and is ready for children. */
  lemma Prepared() returns (s: State)
    ensures OnlyA(s, true, [E])
  {
    Names();
    s := Created();
    s := PassOfA(s, false, [], s.routers[A].(finalizer := true));
    UnionOfOne();
    s := PassOfA(s, true, [], s.routers[A].(applied := [E]));
  }

  /** The entry of O is on device e, and O is recorded everywhere through router A. */
  ghost predicate Holding(s: State) {
    Reach(s) && Quiet(s) && Applied(s)
  }

  /** O records router A and has its entry on device e. */
  ghost predicate Applied(s: State) {
    && O in s.objs && s.objs[O].finalizer && !s.objs[O].deleting
    && s.objs[O].annotation == s.objs[O].statusRef == s.objs[O].specRef == "a"
    && Spot(O, "e") in s.dev && s.dev[Spot(O, "e")] == A && A in s.routers
  }

  /** O was applied through router A, which manages device e alone. */
  lemma Installed() returns (s: State)
    ensures Holding(s) && s.secrets == {SECRET}
    ensures s.routers.Keys == {A} && s.routers[A] == Router(s.routers[A].rv, true, false, [E], [E])
  {
    Names();
    var p := Prepared();
    var fresh_ := Obj(0, false, false, true, "a", "", "", false);
    UserCreatesObj(p, O, "a", fresh_);
    var q := StoreObj(p, O, fresh_);
    assert Ready(q, A) by { assert HasSecret(q, A, E); }
    FivePasses(q, O, A);
    assert "e" in Keys(q.routers[A].spec);
    s := AtObj(Passes(q, O, A, 5), O, Idle);
  }

  lemma FivePasses(q: State, o: Key, r: Key)
    requires Reach(q) && Quiet(q) && o in q.objs && ValidKey(r) && Ready(q, r)
    requires !q.objs[o].deleting && q.objs[o].ready && CleanStatus(q.objs[o])
    ensures var s := AtObj(Passes(q, o, r, 5), o, Idle);
      && Reach(s) && Quiet(s) && s.routers == q.routers && s.secrets == q.secrets
      && o in s.objs && s.objs[o].finalizer && !s.objs[o].deleting
      && s.objs[o].specRef == q.objs[o].specRef
      && s.objs[o].annotation == s.objs[o].statusRef == RefStorage(o.ns, r)
      && forall e :: e in Keys(q.routers[r].spec) ==> Spot(o, e) in s.dev && s.dev[Spot(o, e)] == r
  {
    assert Alone(q, o) by {
      assert forall p, x :: !ObjHolds(ObjPcOf(q, p), x);
      assert forall x :: !RouterHolds(RouterPcOf(q, x));
    }
    AppliedWithinFivePasses(q, o, r);
    PassesAreRuns(q, o, r, 5);
    StartsIdle(q, o);
    var t := Passes(q, o, r, 5);
    ExtendLeads(AtObj(q, o, Idle), o, AtObj(t, o, Idle));
    IdleAgain(q, t, o);
  }

  lemma IdleAgain(q: State, t: State, o: Key)
    requires Quiet(q) && t.opcs == q.opcs && t.rpcs == q.rpcs
    ensures Quiet(AtObj(t, o, Idle))
  {
    var s := AtObj(t, o, Idle);
    assert forall p :: p != o ==> ObjPcOf(s, p) == ObjPcOf(q, p);
    assert forall r :: RouterPcOf(s, r) == RouterPcOf(q, r);
  }

  /** Marking an idle worker as idle is not a step, but reads of the worker cannot tell. */
  lemma StartsIdle(s: State, o: Key)
    requires Reach(s) && ObjPcOf(s, o).Idle? && o in s.objs
    ensures Reach(AtObj(s, o, Idle))
  {
    Extend(s, GetObj(o));
    var a := AtObj(s, o, Read(s.objs[o]));
    Moved(s, o, Read(s.objs[o]), Idle);
    Extend(a, FailObj(o, false));
  }

  lemma Unions()
    ensures EndpointUnion([E], [F]) == [E, F] && EndpointUnion([E, F], [F]) == [E, F]
  {
    assert [E][1..] == [] && [F][1..] == [] && [E, F][1..] == [F];
    assert Upsert([], E) == [E] && Upsert([], F) == [F];
    assert Upsert([E], F) == [E] + [F] == [E, F];
    assert UpsertAll([], [E]) == UpsertAll([E], []) == [E];
    assert UpsertAll([E], [F]) == UpsertAll([E, F], []) == [E, F];
    assert UpsertAll([], [E, F]) == UpsertAll([E], [F]);
    assert Upsert([F], F) == [F] + [] == [F];
    assert Upsert([E, F], F) == [E] + [F];
    assert UpsertAll([E, F], [F]) == UpsertAll([E, F], []);
  }

  /* ---- The end of every leak ---- */

  lemma AllTargets()
    ensures TargetSet("a", ["a", "a"]) == {"a"}
  {
    assert Clean("a");
    SingleRoundTrip("a");
    TrimTrimmed("a");
    assert forall p :: p in ["a", "a"] <==> p == "a";
    assert Tokens(["a", "a"]) == {"a"};
  }

  /** The object is deleted and its worker has decided to clean up router A. */
  lemma Deleting(d: State) returns (x: State)
    requires Holding(d)
    ensures x == StoreObj(d, O, d.objs[O].(deleting := true)) && Quiet(x)
    ensures O in x.objs && x.objs[O].deleting && x.objs[O].finalizer
    ensures Reach(AtObj(x, O, Cleaning(x.objs[O], {"a"}, {}, "", Finalize)))
  {
    Names();
    UserDeletesObj(d, O);
    x := StoreObj(d, O, d.objs[O].(deleting := true));
    AllTargets();
    DecideRun(x, O, A);
    ExtendLeads(x, O, AtObj(x, O, Cleaning(x.objs[O], {"a"}, {}, "", Finalize)));
  }

  /** With nothing left to clean the worker removes the finalizer, and the object is gone. */
  lemma Finalized(m: State, missed: set<string>) returns (s: State)
    requires O in m.objs && m.objs[O].finalizer && m.objs[O].deleting
    requires Reach(AtObj(m, O, Cleaning(m.objs[O], {}, missed, "", Finalize)))
    ensures Reach(s) && O !in s.objs && s.dev == m.dev && s.routers == m.routers
  {
    var snap := m.objs[O];
    var gone := snap.(finalizer := false);
    var pc := Cleaning(snap, {}, missed, "", Finalize);
    Moved(m, O, pc, Put(snap, gone, missed));
    Extend(AtObj(m, O, pc), ReachGoal(O));
    StoreRun(m, O, snap, gone, missed);
    s := AtObj(StoreObj(m, O, gone), O, Idle);
    ExtendLeads(AtObj(m, O, Put(snap, gone, missed)), O, s);
  }

  /** If a cleanup of router A does not visit device e, deleting O leaves its entry there. */
  lemma Leaks(d: State) returns (s: State)
    requires Holding(d) && "e" !in VisitedFor(d, O, "a", "")
    ensures Reach(s) && O !in s.objs && Spot(O, "e") in s.dev && s.routers == d.routers
  {
    var x := Deleting(d);
    var pc := Cleaning(x.objs[O], {"a"}, {}, "", Finalize);
    assert Alone(x, O) by {
      assert forall p, r :: !ObjHolds(ObjPcOf(x, p), r);
      assert forall r :: !RouterHolds(RouterPcOf(x, r));
    }
    CleanRun(x, O, pc);
    var m := Erased(x, O, Visited(x, O, {"a"}, ""));
    ExtendLeads(AtObj(x, O, pc), O, AtObj(m, O, Cleaned(x, O, pc)));
    NotVisited(d, x);
    s := Finalized(m, Cleaned(x, O, pc).missed);
  }

  lemma NotVisited(d: State, x: State)
    requires x.routers == d.routers && x.secrets == d.secrets && "e" !in VisitedFor(d, O, "a", "")
    requires Spot(O, "e") in x.dev
    ensures Spot(O, "e") in Erased(x, O, Visited(x, O, {"a"}, "")).dev
  {
    assert VisitedFor(x, O, "a", "") == VisitedFor(d, O, "a", "") by {
      if A in d.routers { Names(); assert Found(x, A) <==> Found(d, A); }
    }
    assert "e" !in Visited(x, O, {"a"}, "");
    assert Spot(O, "e") !in set y | y in Visited(x, O, {"a"}, "") :: Spot(O, y);
  }

  /* ---- An endpoint handed over to another router ---- */

  /** Users move device e to router B and give A device f. */
  lemma Moving() returns (s: State)
    ensures Holding(s)
    ensures s.routers.Keys == {A, B} && s.routers[B] == Router(s.routers[B].rv, false, false, [E], [])
    ensures s.routers[A] == Router(s.routers[A].rv, true, false, [F], [E])
  {
    Names();
    var i := Installed();
    UserEditsRouter(i, A, F);
    var a := StoreRouter(i, A, i.routers[A].(spec := [F]));
    UserCreatesRouter(a, B, E);
    s := StoreRouter(a, B, Router(0, false, false, [E], []));
  }

  /** A records its new endpoint f beside e. */
  lemma HandedOver() returns (s: State)
    ensures Holding(s)
    ensures s.routers.Keys == {A, B} && s.routers[B] == Router(s.routers[B].rv, false, false, [E], [])
    ensures s.routers[A] == Router(s.routers[A].rv, true, false, [F], [E, F])
  {
    var b := Moving();
    HandsOver(b.routers[A]);
    RouterWrites(b, A);
    s := AtRouter(StoreRouter(b, A, b.routers[A].(applied := [E, F])), A, RIdle);
  }

  lemma HandsOver(snap: Router)
    requires snap.finalizer && !snap.deleting && snap.spec == [F] && snap.applied == [E]
    ensures DecideRouterPc(snap, true) == RPut(snap, snap.(applied := [E, F]), {}, {}, false)
  {
    Names();
    Unions();
  }

  /** A's worker finds e claimed by B and drops it without a sweep. */
  lemma Dropped() returns (s: State)
    ensures Holding(s) && s.routers[A] == Router(s.routers[A].rv, true, false, [F], [F])
  {
    Names();
    Unions();
    var h := HandedOver();
    var snap := h.routers[A];
    RouterOpens(h, A);
    LocksForSweep(h);
    Claimed(h, snap);
    var put := RPut(snap, snap.(applied := [F]), {"e"}, {}, true);
    RouterStores(h, A, put);
    s := AtRouter(StoreRouter(h, A, put.next), A, RIdle);
    QuietAfter(h, s, A);
  }

  lemma LocksForSweep(h: State)
    requires Quiet(h) && A in h.routers && h.routers[A] == Router(h.routers[A].rv, true, false, [F], [E, F])
    requires Reach(AtRouter(h, A, RWait(false)))
    ensures Reach(AtRouter(h, A, RSweep(h.routers[A], {"e"}, {}, {}, {}, false)))
  {
    var snap := h.routers[A];
    var w := AtRouter(h, A, RWait(false));
    FreeForA(h);
    ToSweep(snap);
    RMoved(h, A, RWait(false), RSweep(snap, {"e"}, {}, {}, {}, false));
    Extend(w, LockRouter(A, true));
  }

  lemma FreeForA(h: State)
    requires Quiet(h)
    ensures FenceFree(AtRouter(h, A, RWait(false)), A)
  {
    assert forall o :: ObjPcOf(AtRouter(h, A, RWait(false)), o) == ObjPcOf(h, o);
  }

  lemma ToSweep(snap: Router)
    requires !snap.deleting && snap.spec == [F] && snap.applied == [E, F]
    ensures LockRouterPc(snap, false, true) == RSweep(snap, {"e"}, {}, {}, {}, false)
  {
    FilterBoth();
    assert Keys([F]) == {"f"};
    assert {"e", "f"} - {"f"} == {"e"};
  }

  lemma FilterBoth()
    ensures Keys(Filter([E, F])) == {"e", "f"}
  {
    Names();
    assert forall x :: x in Filter([E, F]) <==> x in [E, F];
  }

  lemma Claimed(h: State, snap: Router)
    requires Reach(AtRouter(h, A, RSweep(snap, {"e"}, {}, {}, {}, false)))
    requires B in h.routers && !h.routers[B].deleting && h.routers[B].spec == [E] && snap.spec == [F] && snap.applied == [E, F]
    ensures Reach(AtRouter(h, A, RPut(snap, snap.(applied := [F]), {"e"}, {}, true)))
  {
    Names();
    var from := RSweep(snap, {"e"}, {}, {}, {}, false);
    var to := RSweep(snap, {}, {"e"}, {}, {}, false);
    assert {"e"} - {"e"} == {} && {} + {"e"} == {"e"};
    assert ClaimedByOther(AtRouter(h, A, from), A, "e") by { assert B in h.routers && B != A; }
    RMoved(h, A, from, to);
    Extend(AtRouter(h, A, from), Classify(A, "e"));
    RMoved(h, A, to, RPut(snap, snap.(applied := [F]), {"e"}, {}, true));
    Extend(AtRouter(h, A, to), FinishSweep(A));
  }

  /**
    A reachable state in which the object is gone, its last cleanup having succeeded everywhere, and
    its entry is still on device e.
   */
  lemma HandoverLeaks() returns (s: State)
    ensures Reach(s) && O !in s.objs && Spot(O, "e") in s.dev
  {
    Names();
    ReferenceToA();
    var d := Dropped();
    assert forall y :: y in Filter([F]) ==> y in [F];
    assert "e" !in Keys(CleanupEndpoints(d.routers[A]));
    s := Leaks(d);
  }

  /* ---- A Secret that is gone ---- */

  /**
    The user deletes the Secret and then the object: the cleanup takes the missing Secret for a missing router.
    Router A is still there, alone, and lists device e.
   */
  lemma SecretLeaks() returns (s: State)
    ensures Reach(s) && O !in s.objs && Spot(O, "e") in s.dev
    ensures s.routers.Keys == {A} && Lists(s.routers[A], "e")
  {
    Names();
    var i := Installed();
    UserDeletesSecret(i, SECRET);
    var d := i.(secrets := i.secrets - {SECRET});
    assert E in Filter([E]);
    assert E in CleanupEndpoints(d.routers[A]) && !HasSecret(d, A, E);
    assert !Found(d, A);
    s := Leaks(d);
  }

  /* ---- A blank Secret name ---- */

  lemma FilterBlank()
    ensures Filter([BLANK]) == [] && Filter([E]) == [E]
  {
    Names();
    assert [BLANK][1..] == [] && [E][1..] == [];
  }

  lemma EditedWhileWaiting(i: State, r: Key, e: Endpoint)
    requires Reach(AtRouter(i, r, RWait(false))) && r in i.routers
    ensures Reach(AtRouter(StoreRouter(i, r, i.routers[r].(spec := [e])), r, RWait(false)))
  {
    var w, next := AtRouter(i, r, RWait(false)), i.routers[r].(spec := [e]);
    Extend(w, EditRouter(r, [e]));
    assert Abandoned(w, r, next) == Abandoned(i, r, next);
    assert StoreRouter(w, r, next) == AtRouter(StoreRouter(i, r, next), r, RWait(false));
  }

  lemma UnionOfSame()
    ensures EndpointUnion([E], [E]) == [E]
  {
    assert [E][1..] == [];
    assert Upsert([], E) == [E] && Upsert([E], E) == [E] + [] == [E];
    assert UpsertAll([], [E]) == UpsertAll([E], []) == [E];
    assert UpsertAll([E], [E]) == UpsertAll([E], []);
  }

  /** The pass of A was validated with endpoint E, and locks the router with the blank one. */
  lemma LocksBlank(h: State)
    requires Quiet(h) && A in h.routers && h.routers[A] == Router(h.routers[A].rv, true, false, [BLANK], [E])
    requires Reach(AtRouter(h, A, RWait(false)))
    ensures Reach(AtRouter(h, A, RPut(h.routers[A], h.routers[A].(applied := [BLANK]), {}, {}, true)))
  {
    var snap := h.routers[A];
    var sweep := RSweep(snap, {}, {}, {}, {}, false);
    SweepsNothing(h);
    RMoved(h, A, sweep, RPut(snap, snap.(applied := [BLANK]), {}, {}, true));
    Extend(AtRouter(h, A, sweep), FinishSweep(A));
  }

  lemma SweepsNothing(h: State)
    requires Quiet(h) && A in h.routers && h.routers[A] == Router(h.routers[A].rv, true, false, [BLANK], [E])
    requires Reach(AtRouter(h, A, RWait(false)))
    ensures Reach(AtRouter(h, A, RSweep(h.routers[A], {}, {}, {}, {}, false)))
  {
    var w, sweep := AtRouter(h, A, RWait(false)), RSweep(h.routers[A], {}, {}, {}, {}, false);
    FilterBlank();
    assert Keys([E]) - Keys([BLANK]) == {};
    FreeForA(h);
    RMoved(h, A, RWait(false), sweep);
    Extend(w, LockRouter(A, true));
  }

  lemma BlankWhileWaiting() returns (h: State)
    ensures Reach(AtRouter(h, A, RWait(false))) && Quiet(h) && Applied(h)
    ensures h.routers.Keys == {A} && h.routers[A] == Router(h.routers[A].rv, true, false, [BLANK], [E])
  {
    var i := Waiting();
    EditedWhileWaiting(i, A, BLANK);
    h := StoreRouter(i, A, i.routers[A].(spec := [BLANK]));
    QuietSame(i, h);
  }

  lemma Waiting() returns (i: State)
    ensures Holding(i) && Reach(AtRouter(i, A, RWait(false)))
    ensures i.routers.Keys == {A} && i.routers[A] == Router(i.routers[A].rv, true, false, [E], [E])
  {
    Names();
    UnionOfSame();
    i := Installed();
    RouterOpens(i, A);
  }

  /** The history of A now holds the blank record of device e only. */
  lemma Blanked() returns (s: State)
    ensures Holding(s) && s.routers.Keys == {A} && s.routers[A] == Router(s.routers[A].rv, true, false, [BLANK], [BLANK])
  {
    var h := BlankWhileWaiting();
    LocksBlank(h);
    var put := RPut(h.routers[A], h.routers[A].(applied := [BLANK]), {}, {}, true);
    RouterStores(h, A, put);
    s := AtRouter(StoreRouter(h, A, put.next), A, RIdle);
    QuietAfter(h, s, A);
  }

  /** No call fails, no device is shared and no router goes missing; the cleanup has no endpoint to visit. */
  lemma BlankLeaks() returns (s: State)
    ensures Reach(s) && O !in s.objs && Spot(O, "e") in s.dev && s.routers.Keys == {A}
  {
    Names();
    FilterBlank();
    var d := Blanked();
    assert CleanupEndpoints(d.routers[A]) == [];
    s := Leaks(d);
  }
}
