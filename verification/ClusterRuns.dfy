/** Every step of the cleanup protocol keeps its invariant; what that means for whole runs. */
module ClusterRuns {
  import opened Text
  import opened Targets
  import opened Cluster
  import opened ClusterSafety

  /* ---- Steps of users ---- */

  lemma UserObj(s: State, step: Step)
    requires Inv(s) && (step.CreateObj? || step.EditObj? || step.DeleteObj?) && UserEnabled(s, step)
    ensures Inv(UserNext(s, step))
  {
    var o := step.o;
    var next := match step
      case CreateObj(_, ready, specRef) => Obj(0, false, false, ready, specRef, "", "", false)
      case EditObj(_, ready, specRef) => s.objs[o].(ready := ready, specRef := specRef)
      case DeleteObj(_) => s.objs[o].(deleting := true);
    WriteObj(s, o, next);
  }

  lemma UserRouter(s: State, step: Step)
    requires Inv(s) && (step.CreateRouter? || step.EditRouter? || step.DeleteRouter?) && UserEnabled(s, step)
    ensures Inv(UserNext(s, step))
  {
    var r := step.r;
    var next := match step
      case CreateRouter(_, spec) => Router(0, false, false, spec, [])
      case EditRouter(_, spec) => s.routers[r].(spec := spec)
      case DeleteRouter(_) => s.routers[r].(deleting := true);
    forall o | ObjPcOf(s, o).ApplyingAt? && ObjPcOf(s, o).key == r ensures Serves(next, ObjPcOf(s, o).router) {
      assert ObjOk(s, o);
    }
    WriteRouter(s, r, next);
  }

  lemma UserSecret(s: State, t: State)
    requires Inv(s) && t == s.(secrets := t.secrets)
    ensures Inv(t)
  {
    assert SameStore(s, t);
    SameDev(s, t);
    assert forall o :: ObjPcOf(t, o) == ObjPcOf(s, o);
    assert forall r :: RouterPcOf(t, r) == RouterPcOf(s, r);
    forall o ensures ObjOk(t, o) { assert ObjOk(s, o); SameObj(s, t, o); }
    forall r ensures RouterOk(t, r) { assert RouterOk(s, r); SameRouter(s, t, r); }
    SamePcs(s, t);
  }

  /* ---- Steps of an object's worker ---- */

  lemma StepGetObj(s: State, o: Key)
    requires Inv(s) && ObjectEnabled(s, GetObj(o))
    ensures Inv(ObjectNext(s, GetObj(o)))
  {
    MoveObj(s, o, Read(s.objs[o]));
  }

  /** Live entries of `o` are recorded by what its worker read. */
  lemma SnapRecords(s: State, o: Key, snap: Obj, sp: Spot)
    requires DevOk(s) && SnapOk(s, o, snap) && Live(s, sp) && sp.obj == o
    ensures Records(o, snap, s.dev[sp]) && ValidKey(s.dev[sp])
  {
    assert Tracked(s, sp);
  }

  /** Writing the union of the recorded and the new targets loses no recorded target. */
  lemma UnionRecords(snap: Obj, extra: seq<string>)
    requires CleanStatus(snap) && forall t :: t in extra ==> t == "" || Clean(t)
    ensures Decode(snap.annotation) <= Decode(Encode(TargetSet(snap.annotation, extra)))
  {
    DecodeClean(snap.annotation);
    forall t | t in Tokens(extra) ensures Clean(t) {
      var p :| p in extra && TrimSpace(p) != [] && t == TrimSpace(p);
      TrimTrimmed(p);
    }
    EncodeRoundTrip(TargetSet(snap.annotation, extra));
  }

  lemma StepDecideObj(s: State, o: Key, res: Resolution)
    requires Inv(s) && ObjectEnabled(s, DecideObj(o, res))
    ensures Inv(ObjectNext(s, DecideObj(o, res)))
  {
    var snap := ObjPcOf(s, o).snap;
    assert ObjOk(s, o);
    match Decide(o.ns, snap, res) {
      case Store(next) =>
        DecideStores(o.ns, snap, res);
        StepToPut(s, o, snap, next, {});
      case CleanUp(todo, exclude, goal) =>
        StepToClean(s, o, snap, todo, exclude, goal);
      case Write(key) =>
        MoveObj(s, o, Applying(snap, key));
    }
  }

  /** A cleanup starts with every recorded target. */
  lemma StepToClean(s: State, o: Key, snap: Obj, todo: set<string>, exclude: string, goal: Goal)
    requires Inv(s) && SnapOk(s, o, snap) && GoalOk(o, exclude, goal) && Decode(snap.annotation) <= todo
    ensures Inv(AtObj(s, o, Cleaning(snap, todo, {}, exclude, goal)))
  {
    var t := AtObj(s, o, Cleaning(snap, todo, {}, exclude, goal));
    assert todo + {} == todo;
    forall sp | Live(s, sp) && sp.obj == o ensures RefStorage(o.ns, s.dev[sp]) in todo {
      SnapRecords(s, o, snap, sp);
    }
    assert Remaining(t, o, todo, exclude) by { assert forall sp :: Live(t, sp) <==> Live(s, sp); }
    MoveObj(s, o, Cleaning(snap, todo, {}, exclude, goal));
  }

  /** Whatever a pass stores directly keeps the finalizer and every recorded target. */
  lemma DecideStores(ns: string, snap: Obj, res: Resolution)
    requires CleanStatus(snap) && (res.Resolved? ==> ValidKey(res.key)) && Decide(ns, snap, res).Store?
    ensures var next := Decide(ns, snap, res).next;
      CleanStatus(next) && (snap.finalizer ==> next.finalizer) && Decode(snap.annotation) <= Decode(next.annotation)
  {
    match res {
      case Resolved(key) =>
        RefRoundTrip(ns, key);
        UnionRecords(snap, [snap.statusRef, RefStorage(ns, key)]);
      case Implicit => UnionRecords(snap, [snap.statusRef]);
      case Unresolved =>
    }
  }

  lemma StepToPut(s: State, o: Key, snap: Obj, next: Obj, missed: set<string>)
    requires Inv(s) && SnapOk(s, o, snap) && CleanStatus(next)
    requires forall sp :: Live(s, sp) && sp.obj == o && Records(o, snap, s.dev[sp]) ==> Retained(o, next, missed, s.dev[sp])
    ensures Inv(AtObj(s, o, Put(snap, next, missed)))
  {
    var t := AtObj(s, o, Put(snap, next, missed));
    forall sp | Live(t, sp) && sp.obj == o ensures Retained(o, next, missed, t.dev[sp]) {
      assert Live(s, sp);
      SnapRecords(s, o, snap, sp);
    }
    MoveObj(s, o, Put(snap, next, missed));
  }

  lemma StepStoreObj(s: State, o: Key)
    requires Inv(s) && ObjectEnabled(s, StoreObjOk(o))
    ensures Inv(ObjectNext(s, StoreObjOk(o)))
  {
    var pc := ObjPcOf(s, o);
    assert ObjOk(s, o);
    var i := AtObj(s, o, Idle);
    MoveObj(s, o, Idle);
    WriteObj(i, o, pc.next);
    assert Forgotten(i, o, pc.next) == Forgotten(s, o, pc.next);
    assert StoreObj(i, o, pc.next) == ObjectNext(s, StoreObjOk(o));
  }

  lemma StepFailObj(s: State, o: Key, report: bool)
    requires Inv(s) && ObjectEnabled(s, FailObj(o, report))
    ensures Inv(ObjectNext(s, FailObj(o, report)))
  {
    assert ObjOk(s, o);
    if report {
      var snap := ObjPcOf(s, o).snap;
      StepToPut(s, o, snap, snap.(applied := false), {});
    } else {
      MoveObj(s, o, Idle);
    }
  }

  /** A target may be crossed off once no live entry was written through its router. */
  lemma CrossOff(s: State, o: Key, todo: set<string>, missed: set<string>, exclude: string, t: string)
    requires DevOk(s) && Remaining(s, o, todo + missed, exclude)
    requires forall sp :: Live(s, sp) && sp.obj == o && s.dev[sp] == KeyFromRef(o.ns, t) ==>
               exclude != "" && s.dev[sp] == KeyFromRef(o.ns, exclude)
    ensures Remaining(s, o, todo - {t} + missed, exclude)
  {
    forall sp | Live(s, sp) && sp.obj == o
      ensures RefStorage(o.ns, s.dev[sp]) in todo - {t} + missed || (exclude != "" && s.dev[sp] == KeyFromRef(o.ns, exclude))
    {
      assert Tracked(s, sp);
      RefRoundTrip(o.ns, s.dev[sp]);
    }
  }

  lemma RemainingMoved(s: State, t: State, o: Key, todo: set<string>, exclude: string)
    requires SameStore(s, t) && Remaining(s, o, todo, exclude)
    ensures Remaining(t, o, todo, exclude)
  {
    assert forall sp :: Live(t, sp) <==> Live(s, sp);
  }

  /** The worker goes on with the next target. */
  lemma NextTarget(s: State, o: Key, t: string)
    requires Inv(s) && (ObjPcOf(s, o).Cleaning? || ObjPcOf(s, o).CleaningAt?)
    requires var pc := ObjPcOf(s, o);
      forall sp :: Live(s, sp) && sp.obj == o && s.dev[sp] == KeyFromRef(o.ns, t) ==>
        pc.exclude != "" && s.dev[sp] == KeyFromRef(o.ns, pc.exclude)
    ensures var pc := ObjPcOf(s, o); Inv(AtObj(s, o, Cleaning(pc.snap, pc.todo - {t}, pc.missed, pc.exclude, pc.goal)))
  {
    var pc := ObjPcOf(s, o);
    var to := Cleaning(pc.snap, pc.todo - {t}, pc.missed, pc.exclude, pc.goal);
    assert ObjOk(s, o);
    CrossOff(s, o, pc.todo, pc.missed, pc.exclude, t);
    RemainingMoved(s, AtObj(s, o, to), o, pc.todo - {t} + pc.missed, pc.exclude);
    MoveObj(s, o, to);
  }

  lemma StepSkipTarget(s: State, o: Key, t: string)
    requires Inv(s) && ObjectEnabled(s, SkipTarget(o, t))
    ensures Inv(ObjectNext(s, SkipTarget(o, t)))
  {
    var pc := ObjPcOf(s, o);
    forall sp | Live(s, sp) && sp.obj == o && s.dev[sp] == KeyFromRef(o.ns, t)
      ensures pc.exclude != "" && s.dev[sp] == KeyFromRef(o.ns, pc.exclude)
    {
      assert Tracked(s, sp);
    }
    NextTarget(s, o, t);
  }

  /** The endpoints a cleanup visits include every endpoint the router lists. */
  lemma CleanupCovers(r: Router, e: Ep)
    requires Lists(r, e)
    ensures e in Keys(CleanupEndpoints(r))
  {
    assert r.applied != [];
  }

  lemma StepLockTarget(s: State, o: Key, t: string)
    requires Inv(s) && ObjectEnabled(s, LockTarget(o, t))
    ensures Inv(ObjectNext(s, LockTarget(o, t)))
  {
    var pc := ObjPcOf(s, o);
    var key := KeyFromRef(o.ns, t);
    assert ObjOk(s, o);
    if key in s.routers {
      var to := Locked(pc, t, key, s.routers[key]);
      var u := AtObj(s, o, to);
      forall sp | Live(u, sp) && sp.obj == o && u.dev[sp] == key ensures sp.ep in to.eps {
        assert Live(s, sp) && Tracked(s, sp);
        CleanupCovers(s.routers[key], sp.ep);
      }
      RemainingMoved(s, u, o, pc.todo + pc.missed, pc.exclude);
      MoveObj(s, o, to);
    } else {
      forall sp | Live(s, sp) && sp.obj == o ensures s.dev[sp] != key { assert Tracked(s, sp); }
      NextTarget(s, o, t);
    }
  }

  lemma StepConnect(s: State, o: Key)
    requires Inv(s) && ObjectEnabled(s, Connect(o))
    ensures Inv(ObjectNext(s, Connect(o)))
  {
    var pc := ObjPcOf(s, o);
    var to := Connected(pc);
    var t := AtObj(s, o, to);
    assert ObjOk(s, o);
    assert forall sp :: Live(t, sp) <==> Live(s, sp);
    assert forall r :: RouterPcOf(t, r) == RouterPcOf(s, r);
    MoveObj(s, o, to);
  }

  /** A target given up for a missing Secret is remembered in `missed`. */
  lemma StepMissSecret(s: State, o: Key)
    requires Inv(s) && ObjectEnabled(s, MissSecret(o))
    ensures Inv(ObjectNext(s, MissSecret(o)))
  {
    var pc := ObjPcOf(s, o);
    var to := Cleaning(pc.snap, pc.todo - {pc.target}, pc.missed + {pc.target}, pc.exclude, pc.goal);
    assert ObjOk(s, o);
    assert to.todo + to.missed == pc.todo + pc.missed;
    RemainingMoved(s, AtObj(s, o, to), o, pc.todo + pc.missed, pc.exclude);
    MoveObj(s, o, to);
  }

  lemma StepEraseAt(s: State, o: Key, e: Ep)
    requires Inv(s) && ObjectEnabled(s, EraseAt(o, e))
    ensures Inv(ObjectNext(s, EraseAt(o, e)))
  {
    var pc := ObjPcOf(s, o);
    var sp := Spot(o, e);
    var m := EraseEntry(s, sp);
    Shrink(s, {sp});
    assert ObjOk(m, o) && ObjPcOf(m, o) == pc && sp !in m.dev;
    var to := ErasedAt(pc, e);
    var u := AtObj(m, o, to);
    RemainingMoved(m, u, o, pc.todo + pc.missed, pc.exclude);
    forall x | Live(u, x) && x.obj == o && u.dev[x] == pc.key ensures x.ep in pc.eps - {e} {
      assert Live(m, x) && x != sp;
    }
    MoveObj(m, o, to);
  }

  lemma StepUnlockTarget(s: State, o: Key)
    requires Inv(s) && ObjectEnabled(s, UnlockTarget(o))
    ensures Inv(ObjectNext(s, UnlockTarget(o)))
  {
    assert ObjOk(s, o);
    NextTarget(s, o, ObjPcOf(s, o).target);
  }

  /** When nothing remains to be cleaned, the goal of the cleanup forgets only what was given up. */
  lemma StepReachGoal(s: State, o: Key)
    requires Inv(s) && ObjectEnabled(s, ReachGoal(o))
    ensures Inv(ObjectNext(s, ReachGoal(o)))
  {
    var pc := ObjPcOf(s, o);
    assert ObjOk(s, o);
    assert pc.todo + pc.missed == pc.missed;
    match pc.goal {
      case Finalize =>
        if pc.snap.finalizer {
          StepToPut(s, o, pc.snap, pc.snap.(finalizer := false), pc.missed);
        } else {
          MoveObj(s, o, Idle);
        }
      case CompactTo(ref) =>
        if pc.snap.annotation == ref {
          MoveObj(s, o, Idle);
        } else {
          if ref != "" {
            var k :| ValidKey(k) && ref == RefStorage(o.ns, k);
            RefRoundTrip(o.ns, k);
            SingleRoundTrip(ref);
          }
          StepToPut(s, o, pc.snap, pc.snap.(annotation := ref), pc.missed);
        }
    }
  }

  lemma StepLockApply(s: State, o: Key)
    requires Inv(s) && ObjectEnabled(s, LockApply(o))
    ensures Inv(ObjectNext(s, LockApply(o)))
  {
    var pc := ObjPcOf(s, o);
    var router := s.routers[pc.key];
    assert ObjOk(s, o) && RouterOk(s, pc.key);
    var to := Opened(pc, router);
    assert RouterPcOf(AtObj(s, o, to), pc.key) == RouterPcOf(s, pc.key);
    MoveObj(s, o, to);
  }

  lemma StepApplyAt(s: State, o: Key, present: bool)
    requires Inv(s) && ObjectEnabled(s, ApplyAt(o, present))
    ensures Inv(ObjectNext(s, ApplyAt(o, present)))
  {
    var pc := ObjPcOf(s, o);
    var e := pc.queue[0].key;
    assert ObjOk(s, o) && pc.queue[0] in pc.queue;
    if present { WriteDev(s, o, e); } else { Shrink(s, {Spot(o, e)}); }
    DropFirst(if present then WriteEntry(s, Spot(o, e), pc.key) else EraseEntry(s, Spot(o, e)), o);
  }

  lemma DropFirst(m: State, o: Key)
    requires Inv(m) && ObjPcOf(m, o).ApplyingAt? && ObjPcOf(m, o).queue != []
    ensures var pc := ObjPcOf(m, o); Inv(AtObj(m, o, ApplyingAt(pc.snap, pc.key, pc.router, [], pc.queue[1..])))
  {
    var pc := ObjPcOf(m, o);
    assert ObjOk(m, o);
    var to := ApplyingAt(pc.snap, pc.key, pc.router, [], pc.queue[1..]);
    assert RouterPcOf(AtObj(m, o, to), pc.key) == RouterPcOf(m, pc.key);
    MoveObj(m, o, to);
  }

  lemma StepApplied(s: State, o: Key)
    requires Inv(s) && ObjectEnabled(s, Applied(o))
    ensures Inv(ObjectNext(s, Applied(o)))
  {
    var pc := ObjPcOf(s, o);
    assert ObjOk(s, o);
    RefRoundTrip(o.ns, pc.key);
    StepToPut(s, o, pc.snap, pc.snap.(applied := true, statusRef := RefStorage(o.ns, pc.key)), {});
  }

  /* ---- Steps of a router's worker ---- */

  /** Live entries of a router are listed by what its worker read, as long as that is fresh. */
  lemma FreshLists(s: State, r: Key, snap: Router, sp: Spot)
    requires DevOk(s) && RSnapOk(s, r, snap) && RFresh(s, r, snap) && Live(s, sp) && s.dev[sp] == r
    ensures Lists(snap, sp.ep)
  {
    assert Tracked(s, sp);
  }

  /** A write that only adds to the history may be prepared without the fence. */
  lemma StepToGrow(s: State, r: Key, snap: Router, next: Router, touched: set<Ep>)
    requires Inv(s) && RSnapOk(s, r, snap) && next.deleting == snap.deleting
    requires (snap.finalizer ==> next.finalizer) && Keys(snap.applied) <= Keys(next.applied)
    requires touched * Keys(next.applied) <= Keys(snap.applied)
    ensures Inv(AtRouter(s, r, RPut(snap, next, {}, touched, false)))
  {
    var to := RPut(snap, next, {}, touched, false);
    var t := AtRouter(s, r, to);
    forall sp | RFresh(t, r, snap) && Live(t, sp) && t.dev[sp] == r ensures RetainedAt(next, {}, sp.ep) {
      assert Live(s, sp);
      FreshLists(s, r, snap, sp);
      ListedOrBlank(next, sp.ep);
    }
    assert RFresh(s, r, snap) ==> ServesAll(s, r, next) by {
      forall o | RFresh(s, r, snap) && ObjPcOf(s, o).ApplyingAt? && ObjPcOf(s, o).key == r
        ensures Serves(next, ObjPcOf(s, o).router)
      {
        assert ObjOk(s, o);
      }
    }
    MoveRouter(s, r, to);
  }

  lemma StepDecideRouter(s: State, r: Key, owned: bool)
    requires Inv(s) && RouterEnabled(s, DecideRouter(r, owned))
    ensures Inv(RouterNext(s, DecideRouter(r, owned)))
  {
    var snap := RouterPcOf(s, r).snap;
    assert RouterOk(s, r);
    var to := DecideRouterPc(snap, owned);
    if to.RPut? {
      StepToGrow(s, r, snap, to.next, {});
    } else {
      MoveRouter(s, r, to);
    }
  }

  lemma StepLockRouter(s: State, r: Key, owned: bool)
    requires Inv(s) && RouterEnabled(s, LockRouter(r, owned))
    ensures Inv(RouterNext(s, LockRouter(r, owned)))
  {
    var snap := s.routers[r];
    var to := LockRouterPc(snap, RouterPcOf(s, r).deletion, owned);
    if to.RPut? {
      StepToGrow(s, r, snap, snap, {});
    } else {
      var t := AtRouter(s, r, to);
      if to.RSweep? {
        forall sp | Live(t, sp) && t.dev[sp] == r
          ensures sp.ep in to.todo || (!to.final && sp.ep in Keys(snap.spec))
        {
          assert Live(s, sp) && Tracked(s, sp);
          CleanupCovers(snap, sp.ep);
        }
      }
      MoveRouter(s, r, to);
    }
  }

  lemma StepClassify(s: State, r: Key, e: Ep)
    requires Inv(s) && RouterEnabled(s, Classify(r, e))
    ensures Inv(RouterNext(s, Classify(r, e)))
  {
    var t := RouterNext(s, Classify(r, e));
    assert RouterOk(s, r);
    assert forall sp :: Live(t, sp) <==> Live(s, sp);
    MoveRouter(s, r, RouterPcOf(t, r));
  }

  lemma SweptSpots(s: State, e: Ep)
    requires s.orphans <= s.dev.Keys
    ensures var gone := set sp | sp in s.dev.Keys && sp.ep == e;
      SweepDevice(s, e) == s.(dev := s.dev - gone, orphans := s.orphans - gone)
  {
    var gone := set sp | sp in s.dev.Keys && sp.ep == e;
    assert SweepDevice(s, e).dev == s.dev - gone;
    assert SweepDevice(s, e).orphans == s.orphans - gone;
  }

  lemma SweptOk(m: State, r: Key, e: Ep)
    requires RouterOk(m, r) && RouterPcOf(m, r).RSweep? && e in RouterPcOf(m, r).owned
    requires forall sp :: Live(m, sp) ==> sp.ep != e
    ensures var pc := RouterPcOf(m, r);
      RouterOk(AtRouter(m, r, RSweep(pc.snap, pc.todo, pc.claimed, pc.owned - {e}, pc.swept + {e}, pc.final)), r)
  {
    var pc := RouterPcOf(m, r);
    var t := AtRouter(m, r, RSweep(pc.snap, pc.todo, pc.claimed, pc.owned - {e}, pc.swept + {e}, pc.final));
    assert forall sp :: Live(t, sp) ==> Live(m, sp);
  }

  lemma StepSweepAt(s: State, r: Key, e: Ep)
    requires Inv(s) && RouterEnabled(s, SweepAt(r, e))
    ensures Inv(RouterNext(s, SweepAt(r, e)))
  {
    var pc := RouterPcOf(s, r);
    var gone := set sp | sp in s.dev.Keys && sp.ep == e;
    var m := s.(dev := s.dev - gone, orphans := s.orphans - gone);
    SweptSpots(s, e);
    Shrink(s, gone);
    assert RouterPcOf(m, r) == pc && RouterOk(m, r);
    SweptOk(m, r, e);
    MoveRouter(m, r, RSweep(pc.snap, pc.todo, pc.claimed, pc.owned - {e}, pc.swept + {e}, pc.final));
  }

  lemma StepFinishSweep(s: State, r: Key)
    requires Inv(s) && RouterEnabled(s, FinishSweep(r))
    ensures Inv(RouterNext(s, FinishSweep(r)))
  {
    var t := RouterNext(s, FinishSweep(r));
    var pc := RouterPcOf(s, r);
    var to := RouterPcOf(t, r);
    assert RouterOk(s, r);
    forall sp | RFresh(t, r, pc.snap) && Live(t, sp) && t.dev[sp] == r
      ensures RetainedAt(to.next, pc.claimed, sp.ep)
    {
      assert Live(s, sp);
      FreshLists(s, r, pc.snap, sp);
      if !pc.final && sp.ep in Keys(pc.snap.spec) { ListedOrBlank(to.next, sp.ep); }
    }
    assert forall o :: !ObjHolds(ObjPcOf(s, o), r);
    MoveRouter(s, r, to);
  }

  lemma StoreThenIdle(s: State, r: Key, next: Router)
    ensures StoreRouter(AtRouter(s, r, RIdle), r, next) == AtRouter(StoreRouter(s, r, next), r, RIdle)
  {
    var i := AtRouter(s, r, RIdle);
    assert Abandoned(i, r, next) == Abandoned(s, r, next);
  }

  lemma StepStoreRouter(s: State, r: Key)
    requires Inv(s) && RouterEnabled(s, StoreRouterOk(r))
    ensures Inv(RouterNext(s, StoreRouterOk(r)))
  {
    var pc := RouterPcOf(s, r);
    assert RouterOk(s, r);
    var i := AtRouter(s, r, RIdle);
    MoveRouter(s, r, RIdle);
    forall o | ObjPcOf(i, o).ApplyingAt? && ObjPcOf(i, o).key == r ensures Serves(pc.next, ObjPcOf(i, o).router) {
      assert ObjOk(s, o);
    }
    WriteRouter(i, r, pc.next);
    StoreThenIdle(s, r, pc.next);
  }

  lemma StepFailRouter(s: State, r: Key, report: bool)
    requires Inv(s) && RouterEnabled(s, FailRouter(r, report))
    ensures Inv(RouterNext(s, FailRouter(r, report)))
  {
    var pc := RouterPcOf(s, r);
    assert RouterOk(s, r);
    if !report {
      MoveRouter(s, r, RIdle);
    } else if pc.RSweep? {
      StepToGrow(s, r, pc.snap, pc.snap, pc.swept);
    } else {
      var to := RPut(pc.snap, pc.next, pc.claimed, pc.touched, false);
      assert forall o :: !ObjHolds(ObjPcOf(s, o), r);
      assert forall sp :: Live(AtRouter(s, r, to), sp) <==> Live(s, sp);
      MoveRouter(s, r, to);
    }
  }

  /* ---- Every step ---- */

  lemma UserKeepsInv(s: State, step: Step)
    requires Inv(s) && ByUser(step) && UserEnabled(s, step)
    ensures Inv(UserNext(s, step))
  {
    match step {
      case CreateObj(_, _, _) => UserObj(s, step);
      case EditObj(_, _, _) => UserObj(s, step);
      case DeleteObj(_) => UserObj(s, step);
      case CreateRouter(_, _) => UserRouter(s, step);
      case EditRouter(_, _) => UserRouter(s, step);
      case DeleteRouter(_) => UserRouter(s, step);
      case CreateSecret(_) => UserSecret(s, UserNext(s, step));
      case DeleteSecret(_) => UserSecret(s, UserNext(s, step));
    }
  }

  lemma ObjectKeepsInv(s: State, step: Step)
    requires Inv(s) && !ByUser(step) && !ByRouter(step) && ObjectEnabled(s, step)
    ensures Inv(ObjectNext(s, step))
  {
    match step {
      case GetObj(o) => StepGetObj(s, o);
      case DecideObj(o, res) => StepDecideObj(s, o, res);
      case StoreObjOk(o) => StepStoreObj(s, o);
      case FailObj(o, report) => StepFailObj(s, o, report);
      case SkipTarget(o, t) => StepSkipTarget(s, o, t);
      case LockTarget(o, t) => StepLockTarget(s, o, t);
      case Connect(o) => StepConnect(s, o);
      case MissSecret(o) => StepMissSecret(s, o);
      case EraseAt(o, e) => StepEraseAt(s, o, e);
      case UnlockTarget(o) => StepUnlockTarget(s, o);
      case ReachGoal(o) => StepReachGoal(s, o);
      case LockApply(o) => StepLockApply(s, o);
      case ApplyAt(o, present) => StepApplyAt(s, o, present);
      case Applied(o) => StepApplied(s, o);
    }
  }

  lemma RouterKeepsInv(s: State, step: Step)
    requires Inv(s) && ByRouter(step) && RouterEnabled(s, step)
    ensures Inv(RouterNext(s, step))
  {
    match step {
      case GetRouter(r) => MoveRouter(s, r, RRead(s.routers[r]));
      case DecideRouter(r, owned) => StepDecideRouter(s, r, owned);
      case LockRouter(r, owned) => StepLockRouter(s, r, owned);
      case Classify(r, e) => StepClassify(s, r, e);
      case SweepAt(r, e) => StepSweepAt(s, r, e);
      case FinishSweep(r) => StepFinishSweep(s, r);
      case StoreRouterOk(r) => StepStoreRouter(s, r);
      case FailRouter(r, report) => StepFailRouter(s, r, report);
    }
  }

  lemma StepKeepsInv(s: State, step: Step)
    requires Inv(s) && Enabled(s, step)
    ensures Inv(Next(s, step))
  {
    if ByUser(step) {
      UserKeepsInv(s, step);
    } else if ByRouter(step) {
      RouterKeepsInv(s, step);
    } else {
      ObjectKeepsInv(s, step);
    }
  }
}
