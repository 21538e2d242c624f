/** Safety of the write-ahead cleanup protocol over every run. */
module ClusterSafety {
  import opened Text
  import opened Targets
  import opened Cluster

  /* ---- The invariant ---- */

  /** Present on a device, and a cleanup would find it. */
  ghost predicate Live(s: State, sp: Spot) {
    sp in s.dev && sp !in s.orphans
  }

  /** A record of device `e` that cannot be connected to. */
  predicate Blank(es: seq<Endpoint>, e: Ep) {
    exists x :: x in es && x.key == e && !Dialable(x)
  }

  /** A device in the history is listed there, or one of its records is blank. */
  lemma ListedOrBlank(router: Router, e: Ep)
    requires router.finalizer && e in Keys(router.applied)
    ensures Lists(router, e) || Blank(router.applied, e)
  {
    var x :| x in router.applied && x.key == e;
    assert Dialable(x) ==> x in Filter(router.applied);
  }

  /** `router` records every endpoint of the configuration `read` a child is applying to. */
  ghost predicate Serves(router: Router, read: Router) {
    router.finalizer && Keys(read.spec) <= Keys(router.applied)
  }

  /** Everything a later cleanup needs is durably recorded. */
  ghost predicate Tracked(s: State, sp: Spot)
    requires sp in s.dev
  {
    var r := s.dev[sp];
    ValidKey(r) && sp.obj in s.objs && r in s.routers && Records(sp.obj, s.objs[sp.obj], r) && Lists(s.routers[r], sp.ep)
  }

  ghost predicate DevOk(s: State) {
    && s.orphans <= s.dev.Keys
    && forall sp :: Live(s, sp) ==> Tracked(s, sp)
  }

  predicate CleanStatus(o: Obj) {
    o.statusRef == "" || Clean(o.statusRef)
  }

  ghost predicate StoredOk(s: State) {
    && (forall o :: o in s.objs ==> s.objs[o].rv < s.clock && CleanStatus(s.objs[o]))
    && (forall r :: r in s.routers ==> s.routers[r].rv < s.clock && ValidKey(r))
  }

  /** The object has not been written since the worker of `o` read `snap`. */
  ghost predicate Fresh(s: State, o: Key, snap: Obj) {
    o in s.objs && s.objs[o].rv == snap.rv
  }

  ghost predicate RFresh(s: State, r: Key, snap: Router) {
    r in s.routers && s.routers[r].rv == snap.rv
  }

  /** What the worker of `o` read is still right about the fields only that worker changes. */
  ghost predicate SnapOk(s: State, o: Key, snap: Obj) {
    && snap.rv < s.clock && CleanStatus(snap)
    && (Fresh(s, o, snap) ==> s.objs[o] == snap)
    && (snap.finalizer <==> o in s.objs && s.objs[o].finalizer)
    && (snap.finalizer ==> s.objs[o].annotation == snap.annotation)
  }

  ghost predicate RSnapOk(s: State, r: Key, snap: Router) {
    snap.rv < s.clock && (RFresh(s, r, snap) ==> s.routers[r] == snap)
  }

  /** Every live entry of `o` is still to be cleaned, or was written through the excluded router. */
  ghost predicate Remaining(s: State, o: Key, todo: set<string>, exclude: string) {
    forall sp :: Live(s, sp) && sp.obj == o ==>
      RefStorage(o.ns, s.dev[sp]) in todo || (exclude != "" && s.dev[sp] == KeyFromRef(o.ns, exclude))
  }

  ghost predicate GoalOk(o: Key, exclude: string, goal: Goal) {
    match goal
    case Finalize => exclude == ""
    case CompactTo(ref) => exclude == ref && (ref == "" || exists k :: ValidKey(k) && ref == RefStorage(o.ns, k))
  }

  /** The invariant of one object's worker. */
  ghost predicate ObjOk(s: State, o: Key) {
    match ObjPcOf(s, o)
    case Idle => true
    case Read(snap) => SnapOk(s, o, snap)
    case Put(snap, next, missed) =>
      SnapOk(s, o, snap) && CleanStatus(next) &&
      (forall sp :: Fresh(s, o, snap) && Live(s, sp) && sp.obj == o ==> Retained(o, next, missed, s.dev[sp]))
    case Cleaning(snap, todo, missed, exclude, goal) =>
      SnapOk(s, o, snap) && GoalOk(o, exclude, goal) && Remaining(s, o, todo + missed, exclude)
    case CleaningAt(snap, todo, missed, exclude, goal, target, key, pending, eps) =>
      SnapOk(s, o, snap) && GoalOk(o, exclude, goal) && Remaining(s, o, todo + missed, exclude) &&
      key == KeyFromRef(o.ns, target) && target in todo &&
      (forall sp :: Live(s, sp) && sp.obj == o && s.dev[sp] == key ==> sp.ep in eps)
    case Applying(snap, key) =>
      SnapOk(s, o, snap) && ValidKey(key) && snap.finalizer && snap.annotation == RefStorage(o.ns, key)
    case ApplyingAt(snap, key, router, pending, queue) =>
      SnapOk(s, o, snap) && ValidKey(key) && snap.finalizer && snap.annotation == RefStorage(o.ns, key) &&
      (forall e :: e in queue ==> e.key in Keys(router.spec)) && key in s.routers &&
      Serves(s.routers[key], router) &&
      (var pc := RouterPcOf(s, key);
       pc.RPut? && RFresh(s, key, pc.snap) ==> Serves(pc.next, router))
  }

  /** What a prepared write keeps: the router is recorded, or it belongs to a target that was given up. */
  ghost predicate Retained(o: Key, next: Obj, missed: set<string>, r: Key) {
    Records(o, next, r) || RefStorage(o.ns, r) in missed
  }

  /** What a prepared router write keeps: the device is listed, claimed by another router, or has a blank record. */
  ghost predicate RetainedAt(next: Router, claimed: set<Ep>, e: Ep) {
    e in claimed || Lists(next, e) || Blank(next.applied, e)
  }

  /** A write prepared outside the fence never takes away what a child may already rely on. */
  ghost predicate Unfenced(snap: Router, next: Router) {
    (snap.finalizer ==> next.finalizer) &&
    (Keys(snap.applied) == Keys(snap.spec) ==> Keys(snap.spec) <= Keys(next.applied))
  }

  /** The invariant of one router's worker. */
  ghost predicate RouterOk(s: State, r: Key) {
    match RouterPcOf(s, r)
    case RIdle => true
    case RRead(snap) => RSnapOk(s, r, snap)
    case RWait(_) => true
    case RSweep(snap, todo, claimed, owned, swept, final) =>
      RSnapOk(s, r, snap) && (final <==> snap.deleting) &&
      (!final ==> todo + claimed + owned + swept <= Keys(snap.applied)) &&
      (forall sp :: Live(s, sp) && s.dev[sp] == r ==>
        sp.ep in todo || sp.ep in claimed || sp.ep in owned || (!final && sp.ep in Keys(snap.spec)))
    case RPut(snap, next, claimed, touched, fenced) =>
      RSnapOk(s, r, snap) && next.deleting == snap.deleting &&
      touched * Keys(next.applied) <= Keys(snap.applied) &&
      (!fenced || !snap.deleting ==> Unfenced(snap, next)) &&
      (forall sp :: RFresh(s, r, snap) && Live(s, sp) && s.dev[sp] == r ==> RetainedAt(next, claimed, sp.ep))
  }

  ghost predicate FencesOk(s: State) {
    && (forall o, p, r :: o != p && ObjHolds(ObjPcOf(s, o), r) ==> !ObjHolds(ObjPcOf(s, p), r))
    && (forall o, r :: ObjHolds(ObjPcOf(s, o), r) ==> !RouterHolds(RouterPcOf(s, r)))
  }

  ghost predicate Inv(s: State) {
    && StoredOk(s) && DevOk(s) && FencesOk(s)
    && (forall o :: ObjOk(s, o))
    && (forall r :: RouterOk(s, r))
  }

  /** `next` serves every child that is applying under the fence of `r`. */
  ghost predicate ServesAll(s: State, r: Key, next: Router) {
    forall o :: ObjPcOf(s, o).ApplyingAt? && ObjPcOf(s, o).key == r ==> Serves(next, ObjPcOf(s, o).router)
  }

  /* ---- Frame lemmas: a step that moves one worker only has to re-establish that worker ---- */

  lemma MoveObj(s: State, o: Key, pc: ObjPc)
    requires Inv(s)
    requires ObjOk(AtObj(s, o, pc), o)
    requires forall r :: ObjHolds(pc, r) && !ObjHolds(ObjPcOf(s, o), r) ==> FenceFree(s, r)
    ensures Inv(AtObj(s, o, pc))
  {
    var t := AtObj(s, o, pc);
    assert ObjPcOf(t, o) == pc;
    forall p ensures ObjOk(t, p) {
      assert ObjOk(s, p);
      if p != o { SameObj(s, t, p); }
    }
    forall r ensures RouterOk(t, r) { assert RouterOk(s, r); SameRouter(s, t, r); }
    assert DevOk(t) by { SameDev(s, t); }
    assert forall p :: p != o ==> ObjPcOf(t, p) == ObjPcOf(s, p);
    assert forall r :: RouterPcOf(t, r) == RouterPcOf(s, r);
  }

  lemma MoveRouter(s: State, r: Key, pc: RouterPc)
    requires Inv(s)
    requires RouterOk(AtRouter(s, r, pc), r)
    requires RouterHolds(pc) && !RouterHolds(RouterPcOf(s, r)) ==> FenceFree(s, r)
    requires pc.RPut? && RFresh(s, r, pc.snap) ==> ServesAll(s, r, pc.next)
    ensures Inv(AtRouter(s, r, pc))
  {
    var t := AtRouter(s, r, pc);
    assert RouterPcOf(t, r) == pc;
    forall q ensures RouterOk(t, q) {
      assert RouterOk(s, q);
      if q != r { SameRouter(s, t, q); }
    }
    forall o ensures ObjOk(t, o) {
      assert ObjOk(s, o);
      assert ObjPcOf(t, o) == ObjPcOf(s, o);
      if !(ObjPcOf(s, o).ApplyingAt? && ObjPcOf(s, o).key == r) { SameObj(s, t, o); }
    }
    assert DevOk(t) by { SameDev(s, t); }
    assert forall o :: ObjPcOf(t, o) == ObjPcOf(s, o);
    assert forall q :: q != r ==> RouterPcOf(t, q) == RouterPcOf(s, q);
  }

  /** The two states agree on everything a worker's invariant looks at. */
  ghost predicate SameStore(s: State, t: State) {
    t.clock == s.clock && t.objs == s.objs && t.routers == s.routers && t.dev == s.dev && t.orphans == s.orphans
  }

  lemma SameDev(s: State, t: State)
    requires SameStore(s, t) && DevOk(s)
    ensures DevOk(t)
  {
    forall sp | Live(t, sp) ensures Tracked(t, sp) { assert Live(s, sp); }
  }

  lemma SameObj(s: State, t: State, o: Key)
    requires SameStore(s, t) && ObjOk(s, o) && ObjPcOf(t, o) == ObjPcOf(s, o)
    requires ObjPcOf(s, o).ApplyingAt? ==> RouterPcOf(t, ObjPcOf(s, o).key) == RouterPcOf(s, ObjPcOf(s, o).key)
    ensures ObjOk(t, o)
  {
    assert forall sp :: Live(t, sp) <==> Live(s, sp);
  }

  lemma SameRouter(s: State, t: State, r: Key)
    requires SameStore(s, t) && RouterOk(s, r) && RouterPcOf(t, r) == RouterPcOf(s, r)
    ensures RouterOk(t, r)
  {
    assert forall sp :: Live(t, sp) <==> Live(s, sp);
  }

  /* ---- Effects on the store and on devices ---- */

  ghost predicate KeepsRecord(s: State, o: Key, next: Obj) {
    if o in s.objs then next.finalizer == s.objs[o].finalizer && next.annotation == s.objs[o].annotation
    else !next.finalizer
  }

  /** `t` has no live entry that `s` does not have. */
  ghost predicate Fewer(s: State, t: State) {
    t.opcs == s.opcs && t.rpcs == s.rpcs &&
    forall sp :: Live(t, sp) ==> Live(s, sp) && t.dev[sp] == s.dev[sp]
  }

  /** A child that holds the fence of `r` can still rely on the endpoints it read. */
  ghost predicate StillUsable(s: State, t: State, r: Key, router: Router) {
    && r in t.routers && RouterOk(s, r)
    && Serves(t.routers[r], router)
    && (forall snap :: RFresh(t, r, snap) && snap.rv < s.clock ==> RFresh(s, r, snap))
  }

  lemma ObjKept(s: State, t: State, p: Key)
    requires Fewer(s, t) && ObjOk(s, p)
    requires var pc := ObjPcOf(s, p); !pc.Idle? ==> SnapOk(t, p, pc.snap) && (Fresh(t, p, pc.snap) ==> Fresh(s, p, pc.snap))
    requires ObjPcOf(s, p).ApplyingAt? ==> StillUsable(s, t, ObjPcOf(s, p).key, ObjPcOf(s, p).router)
    ensures ObjOk(t, p)
  {
  }

  lemma RouterKept(s: State, t: State, q: Key)
    requires Fewer(s, t) && RouterOk(s, q) && t.clock >= s.clock
    requires forall snap :: RFresh(t, q, snap) && snap.rv < s.clock ==> RFresh(s, q, snap) && t.routers[q] == s.routers[q]
    ensures RouterOk(t, q)
  {
  }

  ghost predicate ObjWrite(s: State, o: Key, next: Obj) {
    CleanStatus(next) && (ObjPcOf(s, o).Idle? || KeepsRecord(s, o, next))
  }

  lemma WriteObjDev(s: State, o: Key, next: Obj)
    requires Inv(s) && ObjWrite(s, o, next)
    ensures var t := StoreObj(s, o, next); DevOk(t) && StoredOk(t) && Fewer(s, t)
  {
    var t := StoreObj(s, o, next);
    forall sp | Live(t, sp) ensures Tracked(t, sp) { assert Live(s, sp) && Tracked(s, sp); }
    assert Fewer(s, t) by { assert forall sp :: Live(t, sp) ==> Live(s, sp); }
  }

  lemma WriteObjWorker(s: State, o: Key, next: Obj, p: Key)
    requires Inv(s) && ObjWrite(s, o, next) && Fewer(s, StoreObj(s, o, next))
    ensures ObjOk(StoreObj(s, o, next), p)
  {
    assert ObjOk(s, p);
    if ObjPcOf(s, p).ApplyingAt? { assert RouterOk(s, ObjPcOf(s, p).key); }
    ObjKept(s, StoreObj(s, o, next), p);
  }

  /** Storing an object keeps the invariant if the new value still records every live entry. */
  lemma WriteObj(s: State, o: Key, next: Obj)
    requires Inv(s) && ObjWrite(s, o, next)
    ensures Inv(StoreObj(s, o, next))
  {
    var t := StoreObj(s, o, next);
    WriteObjDev(s, o, next);
    forall p ensures ObjOk(t, p) { WriteObjWorker(s, o, next, p); }
    forall r ensures RouterOk(t, r) { assert RouterOk(s, r); RouterKept(s, t, r); }
    SamePcs(s, t);
  }

  lemma SamePcs(s: State, t: State)
    requires t.opcs == s.opcs && t.rpcs == s.rpcs && FencesOk(s)
    ensures FencesOk(t)
  {
    assert forall p :: ObjPcOf(t, p) == ObjPcOf(s, p);
    assert forall q :: RouterPcOf(t, q) == RouterPcOf(s, q);
  }

  ghost predicate RouterWrite(s: State, r: Key, next: Router) {
    ValidKey(r) && ServesAll(s, r, next)
  }

  lemma WriteRouterDev(s: State, r: Key, next: Router)
    requires Inv(s) && RouterWrite(s, r, next)
    ensures var t := StoreRouter(s, r, next); DevOk(t) && StoredOk(t) && Fewer(s, t)
  {
    var t := StoreRouter(s, r, next);
    forall sp | Live(t, sp) ensures Tracked(t, sp) { assert Live(s, sp) && Tracked(s, sp); }
    assert Fewer(s, t) by { assert forall sp :: Live(t, sp) ==> Live(s, sp); }
  }

  lemma WriteRouterWorker(s: State, r: Key, next: Router, p: Key)
    requires Inv(s) && RouterWrite(s, r, next) && Fewer(s, StoreRouter(s, r, next))
    ensures ObjOk(StoreRouter(s, r, next), p)
  {
    assert ObjOk(s, p);
    if ObjPcOf(s, p).ApplyingAt? { assert RouterOk(s, ObjPcOf(s, p).key); }
    ObjKept(s, StoreRouter(s, r, next), p);
  }

  /** Storing a router keeps the invariant if children holding its fence keep what they rely on. */
  lemma WriteRouter(s: State, r: Key, next: Router)
    requires Inv(s) && RouterWrite(s, r, next)
    ensures Inv(StoreRouter(s, r, next))
  {
    var t := StoreRouter(s, r, next);
    WriteRouterDev(s, r, next);
    forall p ensures ObjOk(t, p) { WriteRouterWorker(s, r, next, p); }
    forall q ensures RouterOk(t, q) { assert RouterOk(s, q); RouterKept(s, t, q); }
    SamePcs(s, t);
  }

  /** Taking entries off devices never breaks anything. */
  lemma Shrink(s: State, gone: set<Spot>)
    requires Inv(s)
    ensures Inv(s.(dev := s.dev - gone, orphans := s.orphans - gone))
  {
    var t := s.(dev := s.dev - gone, orphans := s.orphans - gone);
    forall sp | Live(t, sp) ensures Tracked(t, sp) { assert Live(s, sp) && Tracked(s, sp); }
    assert Fewer(s, t) by { assert forall sp :: Live(t, sp) ==> Live(s, sp); }
    forall p ensures ObjOk(t, p) {
      assert ObjOk(s, p);
      if ObjPcOf(s, p).ApplyingAt? { assert RouterOk(s, ObjPcOf(s, p).key); }
      ObjKept(s, t, p);
    }
    forall q ensures RouterOk(t, q) { assert RouterOk(s, q); RouterKept(s, t, q); }
    assert FencesOk(t) by { SamePcs(s, t); }
  }

  /** `t` differs from `s` in one live entry of `o`, written through `r`. */
  ghost predicate Wrote(s: State, t: State, o: Key, e: Ep, r: Key) {
    t == WriteEntry(s, Spot(o, e), r)
  }

  lemma WroteLive(s: State, t: State, o: Key, e: Ep, r: Key, sp: Spot)
    requires Wrote(s, t, o, e, r)
    ensures sp != Spot(o, e) ==> (Live(t, sp) <==> Live(s, sp)) && (Live(s, sp) ==> t.dev[sp] == s.dev[sp])
    ensures (Live(t, Spot(o, e)) <==> ListedAt(s, r, e)) && t.dev[Spot(o, e)] == r
  {
  }

  lemma WroteObj(s: State, t: State, o: Key, e: Ep, r: Key, p: Key)
    requires Wrote(s, t, o, e, r) && ObjPcOf(s, o).ApplyingAt? && ObjOk(s, p)
    ensures ObjOk(t, p)
  {
    forall sp { WroteLive(s, t, o, e, r, sp); }
    assert ObjPcOf(t, p) == ObjPcOf(s, p);
  }

  lemma WroteRouter(s: State, t: State, o: Key, e: Ep, r: Key, q: Key)
    requires Wrote(s, t, o, e, r) && RouterOk(s, q)
    requires q == r && RouterPcOf(s, q).RPut? && RFresh(s, q, RouterPcOf(s, q).snap) ==>
               RetainedAt(RouterPcOf(s, q).next, RouterPcOf(s, q).claimed, e)
    requires q == r ==> !RouterPcOf(s, q).RSweep?
    ensures RouterOk(t, q)
  {
    forall sp { WroteLive(s, t, o, e, r, sp); }
    assert RouterPcOf(t, q) == RouterPcOf(s, q);
  }

  lemma WroteDev(s: State, t: State, o: Key, e: Ep)
    requires Inv(s) && ObjPcOf(s, o).ApplyingAt? && Wrote(s, t, o, e, ObjPcOf(s, o).key)
    ensures DevOk(t)
  {
    var pc := ObjPcOf(s, o);
    var w := Spot(o, e);
    assert ObjOk(s, o);
    RefRoundTrip(o.ns, pc.key);
    SingleRoundTrip(pc.snap.annotation);
    forall sp | Live(t, sp) ensures Tracked(t, sp) {
      WroteLive(s, t, o, e, pc.key, sp);
      if sp != w { assert Live(s, sp) && Tracked(s, sp); }
    }
  }

  /** A child's write on an endpoint of the active router it has locked. */
  lemma WriteDev(s: State, o: Key, e: Ep)
    requires Inv(s) && ObjPcOf(s, o).ApplyingAt? && e in Keys(ObjPcOf(s, o).router.spec)
    ensures Inv(WriteEntry(s, Spot(o, e), ObjPcOf(s, o).key))
  {
    var pc := ObjPcOf(s, o);
    var t := WriteEntry(s, Spot(o, e), pc.key);
    assert ObjOk(s, o);
    WroteDev(s, t, o, e);
    forall p ensures ObjOk(t, p) { assert ObjOk(s, p); WroteObj(s, t, o, e, pc.key, p); }
    assert ObjHolds(pc, pc.key) && !RouterHolds(RouterPcOf(s, pc.key));
    var rpc := RouterPcOf(s, pc.key);
    if rpc.RPut? && RFresh(s, pc.key, rpc.snap) { ListedOrBlank(rpc.next, e); }
    forall q ensures RouterOk(t, q) { assert RouterOk(s, q); WroteRouter(s, t, o, e, pc.key, q); }
    SamePcs(s, t);
  }
}
