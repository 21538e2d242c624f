/** Runs in which nothing is ever lost: the conditions are the guards of the steps that can lose an entry. */
module ClusterCare {
  import opened Text
  import opened Targets
  import opened Cluster
  import opened ClusterSafety
  import opened ClusterRuns
  import opened ClusterTheorems

  /**
    A step after which an entry may be lost: a removed endpoint is found on another live router, a Secret is
    missing while a target is cleaned, or a router got an endpoint with a blank address or Secret name between
    its validation and the pass that holds its fence.
   */
  ghost predicate Risky(s: State, step: Step) {
    match step
    case Classify(r, e) => ElsewhereListed(s, r, e)
    case MissSecret(_) => true
    case LockRouter(r, _) => r in s.routers && !s.routers[r].deleting && !AllDialable(s.routers[r].spec)
    case _ => false
  }

  ghost predicate Careful(steps: seq<Step>, tr: seq<State>)
    requires |tr| == |steps| + 1
  {
    forall i :: 0 <= i < |steps| ==> !Risky(tr[i], steps[i])
  }

  /* ---- The invariant ---- */

  ghost predicate PcSound(pc: RouterPc) {
    match pc
    case RIdle => true
    case RRead(snap) => AllDialable(snap.applied)
    case RWait(_) => true
    case RSweep(snap, _, claimed, _, _, final) =>
      claimed == {} && AllDialable(snap.applied) && (!final ==> AllDialable(snap.spec))
    case RPut(snap, next, claimed, _, _) => claimed == {} && AllDialable(next.applied)
  }

  ghost predicate RoutersSound(s: State) {
    && (forall r :: r in s.routers ==> AllDialable(s.routers[r].applied))
    && (forall r :: PcSound(RouterPcOf(s, r)))
  }

  ghost predicate NothingMissed(s: State) {
    forall o :: MissedOf(ObjPcOf(s, o)) == {}
  }

  ghost predicate Sound(s: State) {
    s.orphans == {} && RoutersSound(s) && NothingMissed(s)
  }

  lemma {:induction false} UnionDialable(es: seq<Endpoint>, more: seq<Endpoint>)
    requires AllDialable(es) && AllDialable(more)
    ensures AllDialable(UpsertAll(es, more))
    decreases |more|
  {
    if more != [] {
      UpsertDialable(es, more[0]);
      UnionDialable(Upsert(es, more[0]), more[1..]);
    }
  }

  lemma {:induction false} UpsertDialable(es: seq<Endpoint>, e: Endpoint)
    requires Dialable(e) && AllDialable(es)
    ensures AllDialable(Upsert(es, e))
  {
    if es != [] && es[0].key != e.key { UpsertDialable(es[1..], e); }
  }

  lemma DecideSound(snap: Router, owned: bool)
    requires AllDialable(snap.applied)
    ensures PcSound(DecideRouterPc(snap, owned))
  {
    if AllDialable(snap.spec) {
      UnionDialable([], snap.applied);
      UnionDialable(UpsertAll([], snap.applied), snap.spec);
    }
  }

  lemma LockSound(snap: Router, deletion: bool, owned: bool)
    requires AllDialable(snap.applied) && (!snap.deleting ==> AllDialable(snap.spec))
    ensures PcSound(LockRouterPc(snap, deletion, owned))
  {
  }

  lemma StoredSound(s: State, r: Key, next: Router)
    requires (forall q :: q in s.routers ==> AllDialable(s.routers[q].applied)) && AllDialable(next.applied)
    ensures forall q :: q in StoreRouter(s, r, next).routers ==> AllDialable(StoreRouter(s, r, next).routers[q].applied)
  {
  }

  lemma UserSound(s: State, step: Step)
    requires RoutersSound(s) && ByUser(step) && UserEnabled(s, step)
    ensures RoutersSound(UserNext(s, step))
  {
    UserMovesNoWorker(s, step);
    assert forall r :: RouterPcOf(UserNext(s, step), r) == RouterPcOf(s, r);
    match step {
      case CreateObj(_, _, _) =>
      case EditObj(_, _, _) =>
      case DeleteObj(_) =>
      case CreateRouter(r, spec) => StoredSound(s, r, Router(0, false, false, spec, []));
      case EditRouter(r, spec) => StoredSound(s, r, s.routers[r].(spec := spec));
      case DeleteRouter(r) => StoredSound(s, r, s.routers[r].(deleting := true));
      case CreateSecret(_) =>
      case DeleteSecret(_) =>
    }
  }

  lemma ObjectSound(s: State, step: Step)
    requires RoutersSound(s) && !ByUser(step) && !ByRouter(step) && ObjectEnabled(s, step)
    ensures RoutersSound(ObjectNext(s, step))
  {
    ObjectMovesNoRouter(s, step);
    ObjectKeepsRouters(s, step);
    assert forall r :: RouterPcOf(ObjectNext(s, step), r) == RouterPcOf(s, r);
  }

  lemma ObjectKeepsRouters(s: State, step: Step)
    requires !ByUser(step) && !ByRouter(step) && ObjectEnabled(s, step)
    ensures ObjectNext(s, step).routers == s.routers
  {
  }

  lemma WorkerSound(s: State, step: Step)
    requires RoutersSound(s) && ByRouter(step) && RouterEnabled(s, step) && !Risky(s, step)
    ensures PcSound(RouterPcOf(RouterNext(s, step), step.r))
  {
    var r := step.r;
    assert PcSound(RouterPcOf(s, r));
    match step {
      case GetRouter(_) =>
      case DecideRouter(_, owned) => DecideSound(RouterPcOf(s, r).snap, owned);
      case LockRouter(_, owned) => LockSound(s.routers[r], RouterPcOf(s, r).deletion, owned);
      case Classify(_, e) =>
      case SweepAt(_, e) =>
      case FinishSweep(_) =>
      case StoreRouterOk(_) =>
      case FailRouter(_, report) =>
    }
  }

  lemma RouterSound(s: State, step: Step)
    requires RoutersSound(s) && ByRouter(step) && RouterEnabled(s, step) && !Risky(s, step)
    ensures RoutersSound(RouterNext(s, step))
  {
    var t := RouterNext(s, step);
    WorkerSound(s, step);
    forall q ensures PcSound(RouterPcOf(t, q)) {
      assert PcSound(RouterPcOf(s, q));
      if q != step.r { RouterMovesOne(s, step, q); }
    }
    RouterStoresSound(s, step);
  }

  lemma RouterStoresSound(s: State, step: Step)
    requires RoutersSound(s) && ByRouter(step) && RouterEnabled(s, step)
    ensures forall q :: q in RouterNext(s, step).routers ==> AllDialable(RouterNext(s, step).routers[q].applied)
  {
    if step.StoreRouterOk? {
      assert PcSound(RouterPcOf(s, step.r));
      StoredSound(s, step.r, RouterPcOf(s, step.r).next);
    } else {
      RouterKeepsRouters(s, step);
    }
  }

  lemma RouterKeepsRouters(s: State, step: Step)
    requires ByRouter(step) && RouterEnabled(s, step) && !step.StoreRouterOk?
    ensures RouterNext(s, step).routers == s.routers
  {
  }

  lemma MissesNothing(s: State, step: Step)
    requires Inv(s) && NothingMissed(s) && Enabled(s, step) && !Risky(s, step)
    ensures NothingMissed(Next(s, step))
  {
    var t := Next(s, step);
    forall o ensures MissedOf(ObjPcOf(t, o)) == {} {
      assert MissedOf(ObjPcOf(s, o)) == {};
      forall x ensures x !in MissedOf(ObjPcOf(t, o)) { MissesAreReal(s, step, o, x); }
    }
  }

  lemma LosesNothing(s: State, step: Step)
    requires Inv(s) && Sound(s) && Enabled(s, step)
    ensures Next(s, step).orphans == {}
  {
    var t := Next(s, step);
    forall sp ensures sp !in t.orphans {
      HistoryLoss(s, step, sp);
      if step.StoreRouterOk? { assert PcSound(RouterPcOf(s, step.r)); }
      if step.StoreObjOk? { assert MissedOf(ObjPcOf(s, step.o)) == {}; }
    }
  }

  lemma StepSound(s: State, step: Step)
    requires Inv(s) && Sound(s) && Enabled(s, step) && !Risky(s, step)
    ensures Sound(Next(s, step))
  {
    LosesNothing(s, step);
    MissesNothing(s, step);
    if ByUser(step) {
      UserSound(s, step);
    } else if ByRouter(step) {
      RouterSound(s, step);
    } else {
      ObjectSound(s, step);
    }
  }

  lemma SoundNext(steps: seq<Step>, tr: seq<State>, i: nat)
    requires Trace(steps, tr) && i < |steps| && !Risky(tr[i], steps[i]) && Inv(tr[i]) && Sound(tr[i])
    ensures Sound(tr[i + 1])
  {
    assert StepAt(steps, tr, i);
    StepSound(tr[i], steps[i]);
  }

  lemma {:induction false} SoundAt(steps: seq<Step>, tr: seq<State>, i: nat)
    requires Trace(steps, tr) && Init(tr[0]) && Careful(steps, tr) && i <= |steps|
    ensures Sound(tr[i])
  {
    if i == 0 {
      InitSound(tr[0]);
    } else {
      SoundAt(steps, tr, i - 1);
      InvAt(steps, tr, i - 1);
      SoundNext(steps, tr, i - 1);
    }
  }

  lemma InitSound(s: State)
    requires Init(s)
    ensures Sound(s)
  {
    assert forall o :: ObjPcOf(s, o) == Idle;
    assert forall r :: RouterPcOf(s, r) == RIdle;
  }

  /** Without a risky step, no device holds an entry of an object that is gone or has lost its finalizer. */
  lemma RemovedObjectLeavesNothing(steps: seq<Step>, tr: seq<State>, o: Key)
    requires Trace(steps, tr) && Init(tr[0]) && Careful(steps, tr)
    requires var t := tr[|steps|]; o !in t.objs || !t.objs[o].finalizer
    ensures forall e :: Spot(o, e) !in tr[|steps|].dev
  {
    var t := tr[|steps|];
    SoundAt(steps, tr, |steps|);
    InvAt(steps, tr, |steps|);
    forall e ensures Spot(o, e) !in t.dev {
      if Spot(o, e) in t.dev { assert Live(t, Spot(o, e)); }
    }
  }

  /* ---- Runs in which every device belongs to one router ---- */

  /** Users configure endpoint `e` only on the router `owner(e)`. */
  ghost predicate Assigned(owner: Ep -> Key, steps: seq<Step>) {
    forall i :: 0 <= i < |steps| ==> StepAssigned(owner, steps[i])
  }

  ghost predicate StepAssigned(owner: Ep -> Key, step: Step) {
    step.CreateRouter? || step.EditRouter? ==> AllOwned(owner, step.r, Keys(step.spec))
  }

  ghost predicate AllOwned(owner: Ep -> Key, r: Key, eps: set<Ep>) {
    forall e :: e in eps ==> owner(e) == r
  }

  ghost predicate RouterOwned(owner: Ep -> Key, r: Key, router: Router) {
    AllOwned(owner, r, Keys(router.spec)) && AllOwned(owner, r, Keys(router.applied))
  }

  ghost predicate PcOwned(owner: Ep -> Key, r: Key, pc: RouterPc) {
    match pc
    case RIdle => true
    case RRead(snap) => RouterOwned(owner, r, snap)
    case RWait(_) => true
    case RSweep(snap, todo, _, _, _, _) => RouterOwned(owner, r, snap) && AllOwned(owner, r, todo)
    case RPut(snap, next, _, _, _) => RouterOwned(owner, r, snap) && RouterOwned(owner, r, next)
  }

  ghost predicate Owned(owner: Ep -> Key, s: State) {
    && (forall r :: r in s.routers ==> RouterOwned(owner, r, s.routers[r]))
    && (forall r :: PcOwned(owner, r, RouterPcOf(s, r)))
  }

  lemma StoreOwned(owner: Ep -> Key, s: State, q: Key, next: Router, r: Key)
    requires RouterOwned(owner, q, next) && (r in s.routers ==> RouterOwned(owner, r, s.routers[r]))
    requires r in StoreRouter(s, q, next).routers
    ensures RouterOwned(owner, r, StoreRouter(s, q, next).routers[r])
  {
  }

  lemma UserOwned(owner: Ep -> Key, s: State, step: Step)
    requires Owned(owner, s) && ByUser(step) && UserEnabled(s, step) && StepAssigned(owner, step)
    ensures Owned(owner, UserNext(s, step))
  {
    var t := UserNext(s, step);
    UserMovesNoWorker(s, step);
    assert forall r :: RouterPcOf(t, r) == RouterPcOf(s, r);
    forall r | r in t.routers ensures RouterOwned(owner, r, t.routers[r]) {
      match step {
        case CreateObj(_, _, _) =>
        case EditObj(_, _, _) =>
        case DeleteObj(_) =>
        case CreateRouter(q, spec) => StoreOwned(owner, s, q, Router(0, false, false, spec, []), r);
        case EditRouter(q, spec) => StoreOwned(owner, s, q, s.routers[q].(spec := spec), r);
        case DeleteRouter(q) => StoreOwned(owner, s, q, s.routers[q].(deleting := true), r);
        case CreateSecret(_) =>
        case DeleteSecret(_) =>
      }
    }
  }

  lemma LockOwned(owner: Ep -> Key, r: Key, snap: Router, deletion: bool, owned: bool)
    requires RouterOwned(owner, r, snap)
    ensures PcOwned(owner, r, LockRouterPc(snap, deletion, owned))
  {
    assert forall e :: e in CleanupEndpoints(snap) ==> e in snap.applied || e in snap.spec;
    assert AllOwned(owner, r, Keys(CleanupEndpoints(snap)));
    assert AllOwned(owner, r, Keys(Filter(snap.applied)));
  }

  lemma WorkerOwned(owner: Ep -> Key, s: State, step: Step)
    requires Owned(owner, s) && ByRouter(step) && RouterEnabled(s, step)
    ensures PcOwned(owner, step.r, RouterPcOf(RouterNext(s, step), step.r))
  {
    var r := step.r;
    assert PcOwned(owner, r, RouterPcOf(s, r));
    match step {
      case GetRouter(_) =>
      case DecideRouter(_, owned) =>
      case LockRouter(_, owned) => LockOwned(owner, r, s.routers[r], RouterPcOf(s, r).deletion, owned);
      case Classify(_, e) =>
      case SweepAt(_, e) =>
      case FinishSweep(_) =>
      case StoreRouterOk(_) =>
      case FailRouter(_, report) =>
    }
  }

  lemma RouterStoresOwned(owner: Ep -> Key, s: State, step: Step, q: Key)
    requires Owned(owner, s) && ByRouter(step) && RouterEnabled(s, step) && q in RouterNext(s, step).routers
    ensures RouterOwned(owner, q, RouterNext(s, step).routers[q])
  {
    if step.StoreRouterOk? {
      assert PcOwned(owner, step.r, RouterPcOf(s, step.r));
      StoreOwned(owner, s, step.r, RouterPcOf(s, step.r).next, q);
    } else {
      RouterKeepsRouters(s, step);
    }
  }

  lemma StepOwned(owner: Ep -> Key, s: State, step: Step)
    requires Owned(owner, s) && Enabled(s, step) && StepAssigned(owner, step)
    ensures Owned(owner, Next(s, step))
  {
    var t := Next(s, step);
    if ByUser(step) {
      UserOwned(owner, s, step);
    } else if ByRouter(step) {
      WorkerOwned(owner, s, step);
      forall q ensures PcOwned(owner, q, RouterPcOf(t, q)) {
        assert PcOwned(owner, q, RouterPcOf(s, q));
        if q != step.r { RouterMovesOne(s, step, q); }
      }
      forall q | q in t.routers ensures RouterOwned(owner, q, t.routers[q]) { RouterStoresOwned(owner, s, step, q); }
    } else {
      ObjectMovesNoRouter(s, step);
      ObjectKeepsRouters(s, step);
      assert forall r :: RouterPcOf(t, r) == RouterPcOf(s, r);
    }
  }

  lemma OwnedNext(owner: Ep -> Key, steps: seq<Step>, tr: seq<State>, i: nat)
    requires Trace(steps, tr) && i < |steps| && StepAssigned(owner, steps[i]) && Owned(owner, tr[i])
    ensures Owned(owner, tr[i + 1])
  {
    assert StepAt(steps, tr, i);
    StepOwned(owner, tr[i], steps[i]);
  }

  lemma {:induction false} OwnedAt(owner: Ep -> Key, steps: seq<Step>, tr: seq<State>, i: nat)
    requires Trace(steps, tr) && Init(tr[0]) && Assigned(owner, steps) && i <= |steps|
    ensures Owned(owner, tr[i])
  {
    if i == 0 {
      assert forall r :: RouterPcOf(tr[0], r) == RIdle;
    } else {
      OwnedAt(owner, steps, tr, i - 1);
      OwnedNext(owner, steps, tr, i - 1);
    }
  }

  /** No removed endpoint is found on another router. */
  lemma NotClaimed(owner: Ep -> Key, s: State, r: Key, e: Ep)
    requires Owned(owner, s) && Enabled(s, Classify(r, e))
    ensures !ElsewhereListed(s, r, e)
  {
    assert PcOwned(owner, r, RouterPcOf(s, r));
    assert owner(e) == r;
  }

  /**
    When every device belongs to one router, every Secret is found and no blank endpoint gets past the
    validation, no device holds an entry of an object that is gone or has lost its finalizer.
   */
  lemma OneRouterPerDevice(owner: Ep -> Key, steps: seq<Step>, tr: seq<State>, o: Key)
    requires Trace(steps, tr) && Init(tr[0]) && Assigned(owner, steps)
    requires forall i :: 0 <= i < |steps| && Risky(tr[i], steps[i]) ==> steps[i].Classify?
    requires var t := tr[|steps|]; o !in t.objs || !t.objs[o].finalizer
    ensures forall e :: Spot(o, e) !in tr[|steps|].dev
  {
    forall i | 0 <= i < |steps| ensures !Risky(tr[i], steps[i]) {
      if steps[i].Classify? {
        assert StepAt(steps, tr, i);
        OwnedAt(owner, steps, tr, i);
        NotClaimed(owner, tr[i], steps[i].r, steps[i].e);
      }
    }
    RemovedObjectLeavesNothing(steps, tr, o);
  }
}
