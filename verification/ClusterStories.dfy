/**
  What the passes of an object's worker have done when they store something, over whole runs and between the steps
  of all other workers: when an object may be reported as applied, when as failed, and what has been cleaned before
  its finalizer goes or its annotation is compacted.
 */
module ClusterStories {
  import opened Text
  import opened Targets
  import opened Cluster
  import opened ClusterSafety
  import opened ClusterRuns
  import opened ClusterTheorems

  /** The steps after `i` up to `j` belong to the pass of `o` that step `i` is part of. */
  ghost predicate SamePass(tr: seq<State>, o: Key, i: int, j: int)
    requires 0 <= i <= j < |tr|
  {
    forall k :: i < k <= j ==> !ObjPcOf(tr[k], o).Idle?
  }

  /** The step is one of the worker of `o`. */
  predicate IsOf(step: Step, o: Key) {
    !ByUser(step) && !ByRouter(step) && step.o == o
  }

  lemma PcMoves(s: State, step: Step, o: Key)
    requires Enabled(s, step)
    ensures !IsOf(step, o) ==> ObjPcOf(Next(s, step), o) == ObjPcOf(s, o)
    ensures IsOf(step, o) ==> ObjectEnabled(s, step) && ObjPcOf(Next(s, step), o) == ObjectMove(s, step)
  {
    if ByUser(step) || ByRouter(step) {
      OtherStep(s, step);
    } else if step.o != o {
      ObjectMovesOne(s, step, o);
    }
  }

  lemma PcAt(steps: seq<Step>, tr: seq<State>, i: int, o: Key)
    requires Trace(steps, tr) && 0 <= i < |steps|
    ensures Enabled(tr[i], steps[i]) && tr[i + 1] == Next(tr[i], steps[i])
    ensures !IsOf(steps[i], o) ==> ObjPcOf(tr[i + 1], o) == ObjPcOf(tr[i], o)
    ensures IsOf(steps[i], o) ==> ObjectEnabled(tr[i], steps[i]) && ObjPcOf(tr[i + 1], o) == ObjectMove(tr[i], steps[i])
  {
    assert StepAt(steps, tr, i);
    PcMoves(tr[i], steps[i], o);
  }

  lemma StartsIdle(tr: seq<State>, o: Key)
    requires tr != [] && Init(tr[0])
    ensures ObjPcOf(tr[0], o) == Idle
  {
  }

  /* ---- Writing to the endpoints of a locked router ---- */

  /** At step `m` the entry of `o` on endpoint `x` of router `r` is written, or removed if it does not belong there. */
  ghost predicate Writes(steps: seq<Step>, tr: seq<State>, m: int, o: Key, r: Key, x: Endpoint)
    requires |tr| == |steps| + 1 && 0 <= m < |steps|
  {
    steps[m].ApplyAt? && steps[m].o == o &&
    if steps[m].present then Spot(o, x.key) in tr[m + 1].dev && tr[m + 1].dev[Spot(o, x.key)] == r
    else Spot(o, x.key) !in tr[m + 1].dev
  }

  ghost predicate HasWritten(steps: seq<Step>, tr: seq<State>, i: int, j: int, o: Key, r: Key, x: Endpoint)
    requires |tr| == |steps| + 1 && 0 <= i <= j <= |steps|
  {
    exists m :: i < m < j && Writes(steps, tr, m, o, r, x)
  }

  /** ensureRouterActive, in terms of what is stored. */
  ghost predicate TakesConfiguration(r: Router) {
    && !r.deleting
    && r.finalizer
    && r.spec != []
    && EachIn(r.spec, r.applied)
    && EachIn(r.applied, r.spec)
  }

  ghost predicate EachIn(a: seq<Endpoint>, b: seq<Endpoint>) {
    forall x :: x in a ==> HasKey(b, x.key)
  }

  lemma SubKeys(a: seq<Endpoint>, b: seq<Endpoint>)
    ensures Keys(a) <= Keys(b) <==> EachIn(a, b)
  {
    if Keys(a) <= Keys(b) {
      forall x | x in a ensures HasKey(b, x.key) { assert x.key in Keys(a); }
    }
  }

  lemma NoKeys(a: seq<Endpoint>)
    ensures Keys(a) == {} <==> a == []
  {
    if a != [] { assert a[0].key in Keys(a); }
  }

  lemma ActiveMeans(r: Router)
    ensures Active(r) <==> TakesConfiguration(r)
  {
    SubKeys(r.spec, r.applied);
    SubKeys(r.applied, r.spec);
    NoKeys(r.spec);
    assert Keys(r.applied) == Keys(r.spec) <==> Keys(r.spec) <= Keys(r.applied) && Keys(r.applied) <= Keys(r.spec);
  }

  /** The pass locked the router at step `i` and has since written to all its endpoints but those in `queue`. */
  ghost predicate Opening(steps: seq<Step>, tr: seq<State>, i: int, j: int, o: Key, pc: ObjPc)
    requires |tr| == |steps| + 1 && 0 <= i < j <= |steps| && pc.ApplyingAt?
  {
    && steps[i] == LockApply(o)
    && ObjPcOf(tr[i], o) == Applying(pc.snap, pc.key)
    && pc.key in tr[i].routers && pc.router == tr[i].routers[pc.key] && Active(pc.router)
    && SamePass(tr, o, i, j)
    && |pc.queue| <= |pc.router.spec| && pc.queue == pc.router.spec[|pc.router.spec| - |pc.queue|..]
    && forall q :: 0 <= q < |pc.router.spec| - |pc.queue| ==> HasWritten(steps, tr, i, j, o, pc.key, pc.router.spec[q])
  }

  lemma WrittenLater(steps: seq<Step>, tr: seq<State>, i: int, j: int, o: Key, r: Key, x: Endpoint)
    requires |tr| == |steps| + 1 && 0 <= i < j < |steps| && HasWritten(steps, tr, i, j, o, r, x)
    ensures HasWritten(steps, tr, i, j + 1, o, r, x)
  {
    var m :| i < m < j && Writes(steps, tr, m, o, r, x);
    assert i < m < j + 1 && Writes(steps, tr, m, o, r, x);
  }

  lemma OpeningStays(steps: seq<Step>, tr: seq<State>, i: int, j: int, o: Key)
    requires Trace(steps, tr) && 0 <= i < j < |steps| && ObjPcOf(tr[j], o).ApplyingAt?
    requires Opening(steps, tr, i, j, o, ObjPcOf(tr[j], o))
    requires var pc := ObjPcOf(tr[j], o); var to := ObjPcOf(tr[j + 1], o);
      to.ApplyingAt? && to.snap == pc.snap && to.key == pc.key && to.router == pc.router && to.queue == pc.queue
    ensures Opening(steps, tr, i, j + 1, o, ObjPcOf(tr[j + 1], o))
  {
    var pc := ObjPcOf(tr[j], o);
    forall q | 0 <= q < |pc.router.spec| - |pc.queue|
      ensures HasWritten(steps, tr, i, j + 1, o, pc.key, pc.router.spec[q])
    {
      WrittenLater(steps, tr, i, j, o, pc.key, pc.router.spec[q]);
    }
  }

  lemma OpeningWrites(steps: seq<Step>, tr: seq<State>, i: int, j: int, o: Key)
    requires Trace(steps, tr) && 0 <= i < j < |steps| && ObjPcOf(tr[j], o).ApplyingAt?
    requires Opening(steps, tr, i, j, o, ObjPcOf(tr[j], o))
    requires steps[j].ApplyAt? && steps[j].o == o
    ensures ObjPcOf(tr[j + 1], o).ApplyingAt? && Opening(steps, tr, i, j + 1, o, ObjPcOf(tr[j + 1], o))
  {
    PcAt(steps, tr, j, o);
    var pc, to := ObjPcOf(tr[j], o), ObjPcOf(tr[j + 1], o);
    var spec := pc.router.spec;
    var n := |spec| - |pc.queue|;
    assert to == ApplyingAt(pc.snap, pc.key, pc.router, [], pc.queue[1..]);
    assert pc.queue[0] == spec[n] && pc.queue[1..] == spec[n + 1..];
    assert Writes(steps, tr, j, o, pc.key, spec[n]);
    forall q | 0 <= q < n + 1 ensures HasWritten(steps, tr, i, j + 1, o, pc.key, spec[q]) {
      if q < n { WrittenLater(steps, tr, i, j, o, pc.key, spec[q]); }
    }
  }

  lemma OpeningStarts(steps: seq<Step>, tr: seq<State>, i: int, o: Key)
    requires Trace(steps, tr) && 0 <= i < |steps| && steps[i] == LockApply(o)
    ensures ObjPcOf(tr[i + 1], o).ApplyingAt? && Opening(steps, tr, i, i + 1, o, ObjPcOf(tr[i + 1], o))
  {
    PcAt(steps, tr, i, o);
    var pc := ObjPcOf(tr[i + 1], o);
    assert pc.queue == pc.router.spec[|pc.router.spec| - |pc.queue|..];
  }

  /** Only a lock takes a worker into this state, and only a connection or a write keeps it there. */
  lemma IntoApplying(s: State, step: Step)
    requires !ByUser(step) && !ByRouter(step) && ObjectEnabled(s, step) && ObjectMove(s, step).ApplyingAt?
    ensures var pc, to := ObjPcOf(s, step.o), ObjectMove(s, step);
      || (step.LockApply? && !pc.ApplyingAt?)
      || (pc.ApplyingAt? && step.ApplyAt?)
      || (pc.ApplyingAt? && to.snap == pc.snap && to.key == pc.key && to.router == pc.router && to.queue == pc.queue)
  {
  }

  /** One more step of the worker, or of somebody else. */
  lemma OpeningStep(steps: seq<Step>, tr: seq<State>, i: int, j: int, o: Key)
    requires Trace(steps, tr) && 0 <= i < j < |steps|
    requires ObjPcOf(tr[j], o).ApplyingAt? && ObjPcOf(tr[j + 1], o).ApplyingAt?
    requires Opening(steps, tr, i, j, o, ObjPcOf(tr[j], o))
    ensures Opening(steps, tr, i, j + 1, o, ObjPcOf(tr[j + 1], o))
  {
    PcAt(steps, tr, j, o);
    if IsOf(steps[j], o) { IntoApplying(tr[j], steps[j]); }
    if IsOf(steps[j], o) && steps[j].ApplyAt? {
      OpeningWrites(steps, tr, i, j, o);
    } else {
      OpeningStays(steps, tr, i, j, o);
    }
  }

  lemma {:induction false} OpeningAt(steps: seq<Step>, tr: seq<State>, j: int, o: Key) returns (i: int)
    requires Trace(steps, tr) && Init(tr[0]) && 0 <= j <= |steps| && ObjPcOf(tr[j], o).ApplyingAt?
    ensures 0 <= i < j && Opening(steps, tr, i, j, o, ObjPcOf(tr[j], o))
    decreases j
  {
    StartsIdle(tr, o);
    assert j > 0;
    if ObjPcOf(tr[j - 1], o).ApplyingAt? {
      i := OpeningAt(steps, tr, j - 1, o);
      OpeningStep(steps, tr, i, j - 1, o);
    } else {
      PcAt(steps, tr, j - 1, o);
      IntoApplying(tr[j - 1], steps[j - 1]);
      i := j - 1;
      OpeningStarts(steps, tr, i, o);
    }
  }

  /* ---- When an object may be reported as applied ---- */

  /** What a pass stores besides a success never turns an object into an applied one. */
  lemma IntoPut(s: State, step: Step)
    requires !ByUser(step) && !ByRouter(step) && ObjectEnabled(s, step)
    requires var to := ObjectMove(s, step); to.Put? && to.next.applied && !to.snap.applied
    ensures step.Applied?
  {
  }

  /** A prepared write stays as it is until it is stored or given up. */
  lemma PutStays(s: State, step: Step, o: Key)
    requires Enabled(s, step) && ObjPcOf(s, o).Put?
    ensures ObjPcOf(Next(s, step), o) == ObjPcOf(s, o) || ObjPcOf(Next(s, step), o).Idle?
  {
    PcMoves(s, step, o);
  }

  /** The write prepared at `j` was prepared by step `i` of the same pass. */
  lemma {:induction false} PreparedAt(steps: seq<Step>, tr: seq<State>, j: int, o: Key) returns (i: int)
    requires Trace(steps, tr) && Init(tr[0]) && 0 <= j <= |steps| && ObjPcOf(tr[j], o).Put?
    ensures 0 <= i < j && SamePass(tr, o, i, j) && IsOf(steps[i], o) && ObjectEnabled(tr[i], steps[i])
    ensures !ObjPcOf(tr[i], o).Put? && ObjectMove(tr[i], steps[i]) == ObjPcOf(tr[j], o)
    decreases j
  {
    StartsIdle(tr, o);
    assert j > 0;
    PcAt(steps, tr, j - 1, o);
    if ObjPcOf(tr[j - 1], o).Put? {
      PutStays(tr[j - 1], steps[j - 1], o);
      i := PreparedAt(steps, tr, j - 1, o);
    } else {
      i := j - 1;
    }
  }

  /** No step but a store of its own worker changes whether a stored object is applied. */
  lemma OnlyStores(s: State, step: Step, o: Key)
    requires Enabled(s, step) && step != StoreObjOk(o) && o in Next(s, step).objs
    ensures Next(s, step).objs[o].applied ==> o in s.objs && s.objs[o].applied
  {
    if ByUser(step) {
      UserStores(s, step, o);
    } else if ByRouter(step) {
      RouterKeepsObjs(s, step);
    } else {
      ObjectStores(s, step, o);
    }
  }

  lemma UserStores(s: State, step: Step, o: Key)
    requires ByUser(step) && UserEnabled(s, step) && o in UserNext(s, step).objs
    ensures UserNext(s, step).objs[o].applied ==> o in s.objs && s.objs[o].applied
  {
    match step {
      case CreateObj(_, _, _) =>
      case EditObj(_, _, _) =>
      case DeleteObj(_) =>
      case CreateRouter(_, _) =>
      case EditRouter(_, _) =>
      case DeleteRouter(_) =>
      case CreateSecret(_) =>
      case DeleteSecret(_) =>
    }
  }

  lemma RouterKeepsObjs(s: State, step: Step)
    requires ByRouter(step) && RouterEnabled(s, step)
    ensures RouterNext(s, step).objs == s.objs
  {
  }

  lemma ObjectStores(s: State, step: Step, o: Key)
    requires !ByUser(step) && !ByRouter(step) && ObjectEnabled(s, step) && step != StoreObjOk(o)
    ensures o in ObjectNext(s, step).objs ==> o in s.objs && ObjectNext(s, step).objs[o] == s.objs[o]
  {
  }

  /**
    One pass of `o` from the lock at `i` to the success at `n` and the store at `j`: the router took configuration
    when it was locked, every endpoint it had then was written to before `n`, and what is stored names that router,
    in the status and in the annotation.
   */
  ghost predicate AppliedPass(steps: seq<Step>, tr: seq<State>, i: int, n: int, j: int, o: Key, r: Key)
    requires |tr| == |steps| + 1 && 0 <= i < n < j < |steps|
  {
    && steps[i] == LockApply(o) && steps[n] == Applied(o) && steps[j] == StoreObjOk(o) && SamePass(tr, o, i, j)
    && r in tr[i].routers && TakesConfiguration(tr[i].routers[r])
    && WrittenTo(steps, tr, i, n, o, r, tr[i].routers[r].spec)
    && o in tr[j + 1].objs
    && tr[j + 1].objs[o].statusRef == RefStorage(o.ns, r) && tr[j + 1].objs[o].annotation == RefStorage(o.ns, r)
  }

  ghost predicate WrittenTo(steps: seq<Step>, tr: seq<State>, i: int, j: int, o: Key, r: Key, es: seq<Endpoint>)
    requires |tr| == |steps| + 1 && 0 <= i <= j <= |steps|
  {
    forall x :: x in es ==> HasWritten(steps, tr, i, j, o, r, x)
  }

  lemma NothingQueued(steps: seq<Step>, tr: seq<State>, i: int, j: int, o: Key, pc: ObjPc)
    requires |tr| == |steps| + 1 && 0 <= i < j <= |steps| && pc.ApplyingAt? && pc.queue == []
    requires Opening(steps, tr, i, j, o, pc)
    ensures WrittenTo(steps, tr, i, j, o, pc.key, pc.router.spec)
  {
    forall x | x in pc.router.spec ensures HasWritten(steps, tr, i, j, o, pc.key, x) {
      var q :| 0 <= q < |pc.router.spec| && pc.router.spec[q] == x;
      assert HasWritten(steps, tr, i, j, o, pc.key, pc.router.spec[q]);
    }
  }

  /** The writes of a finished pass. */
  lemma AllWritten(steps: seq<Step>, tr: seq<State>, n: int, o: Key) returns (i: int)
    requires Trace(steps, tr) && Init(tr[0]) && 0 <= n < |steps| && steps[n] == Applied(o)
    ensures var pc := ObjPcOf(tr[n], o);
      && pc.ApplyingAt? && 0 <= i < n && steps[i] == LockApply(o) && SamePass(tr, o, i, n)
      && pc.key in tr[i].routers && TakesConfiguration(tr[i].routers[pc.key])
      && WrittenTo(steps, tr, i, n, o, pc.key, tr[i].routers[pc.key].spec)
  {
    PcAt(steps, tr, n, o);
    var pc := ObjPcOf(tr[n], o);
    i := OpeningAt(steps, tr, n, o);
    ActiveMeans(pc.router);
    NothingQueued(steps, tr, i, n, o, pc);
  }

  /** What a store of the worker of `o` leaves. */
  lemma Stored(steps: seq<Step>, tr: seq<State>, j: int, o: Key)
    requires Trace(steps, tr) && Init(tr[0]) && 0 <= j < |steps| && steps[j] == StoreObjOk(o)
    ensures var pc := ObjPcOf(tr[j], o);
      && pc.Put? && o in tr[j].objs && tr[j].objs[o] == pc.snap
      && tr[j + 1].objs == if pc.next.deleting && !pc.next.finalizer then tr[j].objs - {o}
                           else tr[j].objs[o := pc.next.(rv := tr[j].clock)]
  {
    PcAt(steps, tr, j, o);
    InvAt(steps, tr, j);
    assert ObjOk(tr[j], o);
  }

  /** The success at `n` that ends in the store at `j`, with its lock and its writes. */
  lemma PassOf(steps: seq<Step>, tr: seq<State>, n: int, j: int, o: Key) returns (i: int, r: Key)
    requires Trace(steps, tr) && Init(tr[0]) && 0 <= n < j < |steps| && steps[n] == Applied(o) && steps[j] == StoreObjOk(o)
    requires SamePass(tr, o, n, j) && ObjPcOf(tr[j], o) == ObjPcOf(tr[n + 1], o)
    requires o in tr[j + 1].objs
    ensures 0 <= i < n && AppliedPass(steps, tr, i, n, j, o, r) && tr[j + 1].objs[o].applied
  {
    PcAt(steps, tr, n, o);
    Stored(steps, tr, j, o);
    i := AllWritten(steps, tr, n, o);
    r := ObjPcOf(tr[n], o).key;
    InvAt(steps, tr, n);
    assert ObjOk(tr[n], o);
  }

  /** Over whole runs: an object becomes applied only at the end of such a pass. */
  lemma AppliedStory(steps: seq<Step>, tr: seq<State>, j: int, o: Key)
    requires Trace(steps, tr) && Init(tr[0]) && 0 <= j < |steps|
    requires o in tr[j + 1].objs && tr[j + 1].objs[o].applied && !(o in tr[j].objs && tr[j].objs[o].applied)
    ensures exists i, n, r :: 0 <= i < n < j && AppliedPass(steps, tr, i, n, j, o, r)
  {
    PcAt(steps, tr, j, o);
    if steps[j] != StoreObjOk(o) { OnlyStores(tr[j], steps[j], o); }
    Stored(steps, tr, j, o);
    var n := PreparedAt(steps, tr, j, o);
    IntoPut(tr[n], steps[n]);
    PcAt(steps, tr, n, o);
    var i, r := PassOf(steps, tr, n, j, o);
  }

  /* ---- What the status names ---- */

  lemma IntoStatus(s: State, step: Step)
    requires !ByUser(step) && !ByRouter(step) && ObjectEnabled(s, step)
    requires var to := ObjectMove(s, step); to.Put? && to.next.statusRef != to.snap.statusRef
    ensures var to := ObjectMove(s, step); step.Applied? || to.next == to.snap.(statusRef := "", applied := false)
  {
  }

  lemma OnlyStoresStatus(s: State, step: Step, o: Key)
    requires Enabled(s, step) && step != StoreObjOk(o) && o in s.objs && o in Next(s, step).objs
    ensures Next(s, step).objs[o].statusRef == s.objs[o].statusRef
  {
    if ByUser(step) {
      UserKeeps(s, step, o);
    } else if ByRouter(step) {
      RouterKeepsObjs(s, step);
    } else {
      ObjectStores(s, step, o);
    }
  }

  /** What users leave alone. */
  lemma UserKeeps(s: State, step: Step, o: Key)
    requires ByUser(step) && UserEnabled(s, step) && o in s.objs
    ensures s.objs[o].finalizer ==> o in UserNext(s, step).objs
    ensures o in UserNext(s, step).objs ==>
      UserNext(s, step).objs[o] == s.objs[o].(
        rv := UserNext(s, step).objs[o].rv, ready := UserNext(s, step).objs[o].ready,
        specRef := UserNext(s, step).objs[o].specRef, deleting := UserNext(s, step).objs[o].deleting)
  {
    match step {
      case CreateObj(_, _, _) =>
      case EditObj(_, _, _) =>
      case DeleteObj(_) =>
      case CreateRouter(_, _) =>
      case EditRouter(_, _) =>
      case DeleteRouter(_) =>
      case CreateSecret(_) =>
      case DeleteSecret(_) =>
    }
  }

  /** Over whole runs: the status comes to name a router only with such a pass, and to name none only with "not applied". */
  lemma StatusStory(steps: seq<Step>, tr: seq<State>, j: int, o: Key)
    requires Trace(steps, tr) && Init(tr[0]) && 0 <= j < |steps| && o in tr[j].objs && o in tr[j + 1].objs
    requires tr[j + 1].objs[o].statusRef != tr[j].objs[o].statusRef
    ensures steps[j] == StoreObjOk(o)
    ensures var now, next := tr[j].objs[o], tr[j + 1].objs[o];
      || next == now.(statusRef := "", applied := false, rv := tr[j].clock)
      || (next.applied && exists i, n, r :: 0 <= i < n < j && AppliedPass(steps, tr, i, n, j, o, r))
  {
    PcAt(steps, tr, j, o);
    if steps[j] != StoreObjOk(o) { OnlyStoresStatus(tr[j], steps[j], o); }
    Stored(steps, tr, j, o);
    var n := PreparedAt(steps, tr, j, o);
    IntoStatus(tr[n], steps[n]);
    if steps[n].Applied? {
      PcAt(steps, tr, n, o);
      var i, r := PassOf(steps, tr, n, j, o);
    }
  }

  /* ---- When an object has to be reported as not applied ---- */

  /**
    The pass has found that it cannot apply the object: a failure it reports, a specification that is not complete,
    a reference that does not resolve, or no router chosen and none recorded.
   */
  ghost predicate Reports(s: State, step: Step, o: Key) {
    || step == FailObj(o, true)
    || (step.DecideObj? && step.o == o && ObjPcOf(s, o).Read? &&
        var snap := ObjPcOf(s, o).snap;
        !snap.deleting &&
        (|| !snap.ready
         || (snap.finalizer && step.res.Unresolved?)
         || (snap.finalizer && step.res.Implicit? && snap.annotation == "" && snap.statusRef == "")))
  }

  lemma ReportPrepares(s: State, step: Step, o: Key)
    requires IsOf(step, o) && ObjectEnabled(s, step) && Reports(s, step, o)
    ensures var snap := ObjPcOf(s, o).snap; ObjectMove(s, step) == Put(snap, snap.(applied := false), {})
  {
  }

  lemma {:induction false} PutUntil(steps: seq<Step>, tr: seq<State>, i: int, j: int, o: Key)
    requires Trace(steps, tr) && 0 <= i <= j <= |steps| && ObjPcOf(tr[i], o).Put? && SamePass(tr, o, i, j)
    ensures ObjPcOf(tr[j], o) == ObjPcOf(tr[i], o)
    decreases j
  {
    if i < j {
      PutUntil(steps, tr, i, j - 1, o);
      PcAt(steps, tr, j - 1, o);
      PutStays(tr[j - 1], steps[j - 1], o);
    }
  }

  /** Over whole runs: what such a pass stores says "not applied", and changes nothing else. */
  lemma FailureStory(steps: seq<Step>, tr: seq<State>, i: int, j: int, o: Key)
    requires Trace(steps, tr) && Init(tr[0]) && 0 <= i < j < |steps|
    requires Reports(tr[i], steps[i], o) && steps[j] == StoreObjOk(o) && SamePass(tr, o, i, j)
    ensures o in tr[j].objs
    ensures o in tr[j + 1].objs ==> tr[j + 1].objs[o] == tr[j].objs[o].(applied := false, rv := tr[j].clock)
    ensures o !in tr[j + 1].objs ==> tr[j].objs[o].deleting && !tr[j].objs[o].finalizer
  {
    PcAt(steps, tr, i, o);
    ReportPrepares(tr[i], steps[i], o);
    PutUntil(steps, tr, i + 1, j, o);
    Stored(steps, tr, j, o);
  }

  /* ---- Connections come first ---- */

  /** At step `m` the worker of `o` connects to endpoint `x` of router `r`: it has an address, and its Secret is there. */
  ghost predicate Connects(steps: seq<Step>, tr: seq<State>, m: int, o: Key, r: Key, x: Endpoint)
    requires |tr| == |steps| + 1 && 0 <= m < |steps|
  {
    steps[m] == Connect(o) && x.key != "" && TrimSpace(x.secret) != [] && Key(r.ns, x.secret) in tr[m].secrets
  }

  ghost predicate HasConnected(steps: seq<Step>, tr: seq<State>, i: int, j: int, o: Key, r: Key, x: Endpoint)
    requires |tr| == |steps| + 1 && 0 <= i <= j <= |steps|
  {
    exists m :: i < m < j && Connects(steps, tr, m, o, r, x)
  }

  predicate AtRouterOf(pc: ObjPc) {
    pc.CleaningAt? || pc.ApplyingAt?
  }

  /** The worker has held the fence all along since it took it at step `i`. */
  ghost predicate SameVisit(tr: seq<State>, o: Key, i: int, j: int)
    requires 0 <= i <= j < |tr|
  {
    forall k :: i < k <= j ==> AtRouterOf(ObjPcOf(tr[k], o))
  }

  /** Step `i` took the fence of router `r` for the endpoints in `all`. */
  ghost predicate Locks(steps: seq<Step>, tr: seq<State>, i: int, o: Key, r: Key, all: seq<Endpoint>)
    requires |tr| == |steps| + 1 && 0 <= i < |steps|
  {
    r in tr[i].routers &&
    (|| (steps[i].LockTarget? && steps[i].o == o && KeyFromRef(o.ns, steps[i].t) == r && all == CleanupEndpoints(tr[i].routers[r]))
     || (steps[i] == LockApply(o) && all == tr[i].routers[r].spec))
  }

  /** All of these endpoints have been connected to, but for those still pending. */
  ghost predicate Dialing(steps: seq<Step>, tr: seq<State>, i: int, j: int, o: Key, r: Key, all: seq<Endpoint>, pending: seq<Endpoint>)
    requires |tr| == |steps| + 1 && 0 <= i <= j <= |steps|
  {
    && |pending| <= |all| && pending == all[|all| - |pending|..]
    && forall q :: 0 <= q < |all| - |pending| ==> HasConnected(steps, tr, i, j, o, r, all[q])
  }

  lemma ConnectedLater(steps: seq<Step>, tr: seq<State>, i: int, j: int, o: Key, r: Key, x: Endpoint)
    requires |tr| == |steps| + 1 && 0 <= i < j < |steps| && (HasConnected(steps, tr, i, j, o, r, x) || Connects(steps, tr, j, o, r, x))
    ensures HasConnected(steps, tr, i, j + 1, o, r, x)
  {
    if HasConnected(steps, tr, i, j, o, r, x) {
      var m :| i < m < j && Connects(steps, tr, m, o, r, x);
      assert i < m < j + 1 && Connects(steps, tr, m, o, r, x);
    }
  }

  lemma DialingOn(
    steps: seq<Step>, tr: seq<State>, i: int, j: int, o: Key, r: Key, all: seq<Endpoint>, pending: seq<Endpoint>, next: seq<Endpoint>)
    requires |tr| == |steps| + 1 && 0 <= i < j < |steps| && Dialing(steps, tr, i, j, o, r, all, pending)
    requires next == pending || (pending != [] && next == pending[1..] && Connects(steps, tr, j, o, r, pending[0]))
    ensures Dialing(steps, tr, i, j + 1, o, r, all, next)
  {
    var n := |all| - |pending|;
    assert next == all[|all| - |next|..];
    forall q | 0 <= q < |all| - |next| ensures HasConnected(steps, tr, i, j + 1, o, r, all[q]) {
      if q == n { assert pending[0] == all[n]; }
      ConnectedLater(steps, tr, i, j, o, r, all[q]);
    }
  }

  /** How a worker gets to a router, and goes on there. */
  lemma IntoRouter(s: State, step: Step)
    requires !ByUser(step) && !ByRouter(step) && ObjectEnabled(s, step) && AtRouterOf(ObjectMove(s, step))
    ensures var pc, to := ObjPcOf(s, step.o), ObjectMove(s, step);
      if AtRouterOf(pc) then
        to.key == pc.key && (to.pending == pc.pending || (step.Connect? && pc.pending != [] && to.pending == pc.pending[1..]))
      else
        to.key in s.routers &&
        (|| (step.LockTarget? && KeyFromRef(step.o.ns, step.t) == to.key && to.pending == CleanupEndpoints(s.routers[to.key]))
         || (step.LockApply? && to.pending == s.routers[to.key].spec))
  {
  }

  lemma ConnectMeans(steps: seq<Step>, tr: seq<State>, j: int, o: Key)
    requires Trace(steps, tr) && 0 <= j < |steps| && steps[j] == Connect(o)
    ensures var pc := ObjPcOf(tr[j], o); AtRouterOf(pc) && pc.pending != [] && Connects(steps, tr, j, o, pc.key, pc.pending[0])
  {
    PcAt(steps, tr, j, o);
  }

  lemma DialingStep(steps: seq<Step>, tr: seq<State>, i: int, j: int, o: Key, r: Key, all: seq<Endpoint>)
    requires Trace(steps, tr) && 0 <= i < j < |steps| && AtRouterOf(ObjPcOf(tr[j], o)) && AtRouterOf(ObjPcOf(tr[j + 1], o))
    requires ObjPcOf(tr[j], o).key == r && Dialing(steps, tr, i, j, o, r, all, ObjPcOf(tr[j], o).pending)
    ensures ObjPcOf(tr[j + 1], o).key == r && Dialing(steps, tr, i, j + 1, o, r, all, ObjPcOf(tr[j + 1], o).pending)
  {
    PcAt(steps, tr, j, o);
    var pc, to := ObjPcOf(tr[j], o), ObjPcOf(tr[j + 1], o);
    if IsOf(steps[j], o) {
      IntoRouter(tr[j], steps[j]);
      if steps[j].Connect? { ConnectMeans(steps, tr, j, o); }
    }
    DialingOn(steps, tr, i, j, o, r, all, pc.pending, to.pending);
  }

  lemma {:induction false} DialingAt(steps: seq<Step>, tr: seq<State>, j: int, o: Key) returns (i: int, all: seq<Endpoint>)
    requires Trace(steps, tr) && Init(tr[0]) && 0 <= j <= |steps| && AtRouterOf(ObjPcOf(tr[j], o))
    ensures 0 <= i < j && SameVisit(tr, o, i, j)
    ensures var pc := ObjPcOf(tr[j], o); Locks(steps, tr, i, o, pc.key, all) && Dialing(steps, tr, i, j, o, pc.key, all, pc.pending)
    decreases j
  {
    StartsIdle(tr, o);
    assert j > 0;
    if AtRouterOf(ObjPcOf(tr[j - 1], o)) {
      i, all := DialingAt(steps, tr, j - 1, o);
      DialingStep(steps, tr, i, j - 1, o, ObjPcOf(tr[j - 1], o).key, all);
    } else {
      PcAt(steps, tr, j - 1, o);
      IntoRouter(tr[j - 1], steps[j - 1]);
      i, all := j - 1, ObjPcOf(tr[j], o).pending;
      assert all == all[0..];
    }
  }

  /** The lock at `i` of router `r`, and a connection since to each of the endpoints it is to work on. */
  ghost predicate AllConnected(steps: seq<Step>, tr: seq<State>, i: int, j: int, o: Key, r: Key, all: seq<Endpoint>)
    requires |tr| == |steps| + 1 && 0 <= i < j <= |steps|
  {
    Locks(steps, tr, i, o, r, all) && SameVisit(tr, o, i, j) && forall x :: x in all ==> HasConnected(steps, tr, i, j, o, r, x)
  }

  /**
    Over whole runs: an entry is written or erased only after the pass has connected, under the fence, to every
    endpoint it is going to work on: a device whose Secret is missing keeps all of them as they are.
   */
  lemma ConnectStory(steps: seq<Step>, tr: seq<State>, m: int, o: Key)
    requires Trace(steps, tr) && Init(tr[0]) && 0 <= m < |steps| && IsOf(steps[m], o) && (steps[m].EraseAt? || steps[m].ApplyAt?)
    ensures exists i, r, all :: 0 <= i < m && AllConnected(steps, tr, i, m, o, r, all)
  {
    PcAt(steps, tr, m, o);
    var pc := ObjPcOf(tr[m], o);
    var i, all := DialingAt(steps, tr, m, o);
    forall x | x in all ensures HasConnected(steps, tr, i, m, o, pc.key, x) {
      var q :| 0 <= q < |all| && all[q] == x;
    }
    assert AllConnected(steps, tr, i, m, o, pc.key, all);
  }

  /* ---- What has been cleaned before a target is forgotten ---- */

  /** At step `m` the entry of `o` on device `e` is erased. */
  ghost predicate Erases(steps: seq<Step>, tr: seq<State>, m: int, o: Key, e: Ep)
    requires |tr| == |steps| + 1 && 0 <= m < |steps|
  {
    steps[m] == EraseAt(o, e) && Spot(o, e) !in tr[m + 1].dev
  }

  ghost predicate HasErased(steps: seq<Step>, tr: seq<State>, i: int, j: int, o: Key, e: Ep)
    requires |tr| == |steps| + 1 && 0 <= i <= j <= |steps|
  {
    exists m :: i < m < j && Erases(steps, tr, m, o, e)
  }

  /** Some record of device `e` has an address and a Secret name. */
  ghost predicate Usable(es: seq<Endpoint>, e: Ep) {
    exists x :: x in es && x.key == e && e != "" && TrimSpace(x.secret) != []
  }

  lemma FilterMeans(es: seq<Endpoint>, e: Ep)
    ensures e in Keys(Filter(es)) <==> Usable(es, e)
  {
    if e in Keys(Filter(es)) {
      var x :| x in Filter(es) && x.key == e;
      assert x in es && Dialable(x);
    }
    if Usable(es, e) {
      var x :| x in es && x.key == e && e != "" && TrimSpace(x.secret) != [];
      assert x in Filter(es);
    }
  }

  /** The endpoints a cleanup of the router visits: its history, or its configuration if there is none yet. */
  ghost predicate ToVisit(r: Router, e: Ep) {
    Usable(if r.applied == [] then r.spec else r.applied, e)
  }

  lemma VisitsMeans(r: Router, e: Ep)
    ensures e in Keys(CleanupEndpoints(r)) <==> ToVisit(r, e)
  {
    FilterMeans(if r.applied == [] then r.spec else r.applied, e);
  }

  /** The target was locked at `i`; every device to visit, except those in `eps`, has been cleaned since. */
  ghost predicate Visiting(steps: seq<Step>, tr: seq<State>, i: int, j: int, o: Key, t: string, eps: set<Ep>)
    requires |tr| == |steps| + 1 && 0 <= i < j <= |steps|
  {
    && steps[i] == LockTarget(o, t)
    && KeyFromRef(o.ns, t) in tr[i].routers
    && forall e :: e !in eps && ToVisit(tr[i].routers[KeyFromRef(o.ns, t)], e) ==> HasErased(steps, tr, i, j, o, e)
  }

  /** Only a lock starts a visit, and only connecting and erasing go on with it. */
  lemma IntoCleaningAt(s: State, step: Step)
    requires !ByUser(step) && !ByRouter(step) && ObjectEnabled(s, step) && ObjectMove(s, step).CleaningAt?
    ensures var pc, to := ObjPcOf(s, step.o), ObjectMove(s, step);
      || (step == LockTarget(step.o, to.target) && !pc.CleaningAt? && KeyFromRef(step.o.ns, to.target) in s.routers &&
          to.eps == Keys(CleanupEndpoints(s.routers[KeyFromRef(step.o.ns, to.target)])))
      || (pc.CleaningAt? && to.target == pc.target &&
          ((step.Connect? && to.eps == pc.eps) || (step.EraseAt? && to.eps == pc.eps - {step.e})))
  {
  }

  lemma VisitingLater(steps: seq<Step>, tr: seq<State>, i: int, j: int, o: Key, t: string, eps: set<Ep>, gone: set<Ep>)
    requires |tr| == |steps| + 1 && 0 <= i < j < |steps| && Visiting(steps, tr, i, j, o, t, eps)
    requires forall e :: e in gone ==> Erases(steps, tr, j, o, e)
    ensures Visiting(steps, tr, i, j + 1, o, t, eps - gone)
  {
    forall e | e !in eps - gone && ToVisit(tr[i].routers[KeyFromRef(o.ns, t)], e) ensures HasErased(steps, tr, i, j + 1, o, e) {
      if e in eps {
        assert Erases(steps, tr, j, o, e);
      } else {
        var m :| i < m < j && Erases(steps, tr, m, o, e);
        assert i < m < j + 1 && Erases(steps, tr, m, o, e);
      }
    }
  }

  lemma EraseErases(steps: seq<Step>, tr: seq<State>, m: int, o: Key, e: Ep)
    requires Trace(steps, tr) && 0 <= m < |steps| && steps[m] == EraseAt(o, e)
    ensures Erases(steps, tr, m, o, e)
  {
    PcAt(steps, tr, m, o);
  }

  lemma VisitingStarts(steps: seq<Step>, tr: seq<State>, i: int, o: Key, t: string, eps: set<Ep>)
    requires |tr| == |steps| + 1 && 0 <= i < |steps| && steps[i] == LockTarget(o, t)
    requires var r := KeyFromRef(o.ns, t); r in tr[i].routers && eps == Keys(CleanupEndpoints(tr[i].routers[r]))
    ensures Visiting(steps, tr, i, i + 1, o, t, eps)
  {
    forall e ensures e !in eps ==> !ToVisit(tr[i].routers[KeyFromRef(o.ns, t)], e) {
      VisitsMeans(tr[i].routers[KeyFromRef(o.ns, t)], e);
    }
  }

  lemma VisitingStep(steps: seq<Step>, tr: seq<State>, i: int, j: int, o: Key)
    requires Trace(steps, tr) && 0 <= i < j < |steps|
    requires ObjPcOf(tr[j], o).CleaningAt? && ObjPcOf(tr[j + 1], o).CleaningAt?
    requires var pc := ObjPcOf(tr[j], o); Visiting(steps, tr, i, j, o, pc.target, pc.eps)
    ensures var to := ObjPcOf(tr[j + 1], o); Visiting(steps, tr, i, j + 1, o, to.target, to.eps)
  {
    PcAt(steps, tr, j, o);
    var pc, to := ObjPcOf(tr[j], o), ObjPcOf(tr[j + 1], o);
    var gone: set<Ep> := {};
    if IsOf(steps[j], o) {
      IntoCleaningAt(tr[j], steps[j]);
      if steps[j].EraseAt? {
        EraseErases(steps, tr, j, o, steps[j].e);
        gone := {steps[j].e};
      }
    }
    assert to.target == pc.target && to.eps == pc.eps - gone;
    VisitingLater(steps, tr, i, j, o, pc.target, pc.eps, gone);
  }

  lemma {:induction false} VisitingAt(steps: seq<Step>, tr: seq<State>, j: int, o: Key) returns (i: int)
    requires Trace(steps, tr) && Init(tr[0]) && 0 <= j <= |steps| && ObjPcOf(tr[j], o).CleaningAt?
    ensures var pc := ObjPcOf(tr[j], o);
      0 <= i < j && Visiting(steps, tr, i, j, o, pc.target, pc.eps) && SamePass(tr, o, i, j)
    decreases j
  {
    StartsIdle(tr, o);
    assert j > 0;
    if ObjPcOf(tr[j - 1], o).CleaningAt? {
      i := VisitingAt(steps, tr, j - 1, o);
      VisitingStep(steps, tr, i, j - 1, o);
    } else {
      PcAt(steps, tr, j - 1, o);
      IntoCleaningAt(tr[j - 1], steps[j - 1]);
      i := j - 1;
      VisitingStarts(steps, tr, i, o, ObjPcOf(tr[j], o).target, ObjPcOf(tr[j], o).eps);
    }
  }

  /**
    What can be said of a target before it is forgotten: it names no router, it names the router that is kept, its
    router was gone, a Secret of its router was missing, or every device to visit was cleaned.
   */
  ghost predicate HandledAt(steps: seq<Step>, tr: seq<State>, n: int, o: Key, t: string, keep: string)
    requires |tr| == |steps| + 1 && 0 <= n < |steps|
  {
    match steps[n]
    case SkipTarget(p, u) =>
      p == o && u == t &&
      (KeyFromRef(o.ns, t).name == "" || (keep != "" && (t == keep || KeyFromRef(o.ns, t) == KeyFromRef(o.ns, keep))))
    case LockTarget(p, u) => p == o && u == t && KeyFromRef(o.ns, t) !in tr[n].routers
    case MissSecret(p) => p == o && GivesUp(tr[n], steps[n], o, t)
    case UnlockTarget(p) => p == o && exists i :: 0 <= i < n && Visiting(steps, tr, i, n, o, t, {}) && SamePass(tr, o, i, n)
    case _ => false
  }

  ghost predicate Handled(steps: seq<Step>, tr: seq<State>, d: int, j: int, o: Key, t: string, keep: string)
    requires |tr| == |steps| + 1 && 0 <= d <= j <= |steps|
  {
    exists n :: d < n < j && HandledAt(steps, tr, n, o, t, keep)
  }

  ghost predicate AllHandled(steps: seq<Step>, tr: seq<State>, d: int, j: int, o: Key, ts: set<string>, keep: string)
    requires |tr| == |steps| + 1 && 0 <= d <= j <= |steps|
  {
    forall t :: t in ts ==> Handled(steps, tr, d, j, o, t, keep)
  }

  /** The pass that decided at step `d` to clean up the targets in `all` has handled them but for those in `todo`. */
  ghost predicate Cleansing(steps: seq<Step>, tr: seq<State>, d: int, j: int, o: Key, all: set<string>, pc: ObjPc)
    requires |tr| == |steps| + 1 && 0 <= d < j <= |steps| && (pc.Cleaning? || pc.CleaningAt?)
  {
    SamePass(tr, o, d, j) && AllHandled(steps, tr, d, j, o, all - pc.todo, pc.exclude)
  }

  /** At step `d` the worker of `o`, having read `pc.snap`, decided on this cleanup. */
  ghost predicate DecidesOn(steps: seq<Step>, tr: seq<State>, d: int, o: Key, all: set<string>, pc: ObjPc)
    requires |tr| == |steps| + 1 && 0 <= d < |steps| && (pc.Cleaning? || pc.CleaningAt?)
  {
    && steps[d].DecideObj? && steps[d].o == o && ObjPcOf(tr[d], o) == Read(pc.snap)
    && Decide(o.ns, pc.snap, steps[d].res) == CleanUp(all, pc.exclude, pc.goal)
  }

  lemma StartsCleaning(s: State, step: Step)
    requires step.DecideObj? && ObjectEnabled(s, step)
    requires var to := ObjectMove(s, step); to.Cleaning? || to.CleaningAt?
    ensures var pc, to := ObjPcOf(s, step.o), ObjectMove(s, step);
      pc == Read(to.snap) && Decide(step.o.ns, to.snap, step.res) == CleanUp(to.todo, to.exclude, to.goal)
  {
  }

  /** How a worker goes on with a cleanup. */
  lemma GoesOnCleaning(s: State, step: Step)
    requires !ByUser(step) && !ByRouter(step) && !step.DecideObj? && ObjectEnabled(s, step)
    requires var to := ObjectMove(s, step); to.Cleaning? || to.CleaningAt?
    ensures var pc, to := ObjPcOf(s, step.o), ObjectMove(s, step);
      && (pc.Cleaning? || pc.CleaningAt?) && to.snap == pc.snap && to.exclude == pc.exclude && to.goal == pc.goal
      && (|| to.todo == pc.todo
          || (step.SkipTarget? && to.todo == pc.todo - {step.t})
          || (step.LockTarget? && to.todo == pc.todo - {step.t} && KeyFromRef(step.o.ns, step.t) !in s.routers)
          || (step.MissSecret? && pc.CleaningAt? && to.todo == pc.todo - {pc.target})
          || (step.UnlockTarget? && pc.CleaningAt? && to.todo == pc.todo - {pc.target}))
  {
  }

  lemma HandledLater(
    steps: seq<Step>, tr: seq<State>, d: int, j: int, o: Key, t: string, keep: string)
    requires |tr| == |steps| + 1 && 0 <= d < j < |steps|
    requires Handled(steps, tr, d, j, o, t, keep) || HandledAt(steps, tr, j, o, t, keep)
    ensures Handled(steps, tr, d, j + 1, o, t, keep)
  {
    if Handled(steps, tr, d, j, o, t, keep) {
      var n :| d < n < j && HandledAt(steps, tr, n, o, t, keep);
      assert d < n < j + 1 && HandledAt(steps, tr, n, o, t, keep);
    }
  }

  lemma TargetsLater(
    steps: seq<Step>, tr: seq<State>, d: int, j: int, o: Key, all: set<string>, todo: set<string>, done: set<string>, keep: string)
    requires |tr| == |steps| + 1 && 0 <= d < j < |steps|
    requires AllHandled(steps, tr, d, j, o, all - todo, keep)
    requires forall t :: t in done ==> HandledAt(steps, tr, j, o, t, keep)
    ensures AllHandled(steps, tr, d, j + 1, o, all - (todo - done), keep)
  {
    forall t | t in all - (todo - done) ensures Handled(steps, tr, d, j + 1, o, t, keep) {
      HandledLater(steps, tr, d, j, o, t, keep);
    }
  }

  lemma CleansingLater(
    steps: seq<Step>, tr: seq<State>, d: int, j: int, o: Key, all: set<string>, pc: ObjPc, to: ObjPc, done: set<string>)
    requires |tr| == |steps| + 1 && 0 <= d < j < |steps| && (pc.Cleaning? || pc.CleaningAt?) && (to.Cleaning? || to.CleaningAt?)
    requires Cleansing(steps, tr, d, j, o, all, pc) && ObjPcOf(tr[j + 1], o) == to
    requires to.exclude == pc.exclude && to.todo == pc.todo - done
    requires forall t :: t in done ==> HandledAt(steps, tr, j, o, t, pc.exclude)
    ensures Cleansing(steps, tr, d, j + 1, o, all, to)
  {
    TargetsLater(steps, tr, d, j, o, all, pc.todo, done, pc.exclude);
  }

  lemma TargetHandled(steps: seq<Step>, tr: seq<State>, j: int, o: Key)
    requires Trace(steps, tr) && Init(tr[0]) && 0 <= j < |steps| && IsOf(steps[j], o)
    requires steps[j].UnlockTarget? || steps[j].MissSecret?
    ensures ObjPcOf(tr[j], o).CleaningAt?
    ensures HandledAt(steps, tr, j, o, ObjPcOf(tr[j], o).target, ObjPcOf(tr[j], o).exclude)
  {
    PcAt(steps, tr, j, o);
    if steps[j].UnlockTarget? {
      var i := VisitingAt(steps, tr, j, o);
    } else {
      InvAt(steps, tr, j);
      assert ObjOk(tr[j], o);
    }
  }

  /** One more step of the worker, or of somebody else, in a cleanup that goes on. */
  lemma CleansingStep(steps: seq<Step>, tr: seq<State>, d: int, j: int, o: Key, all: set<string>)
    requires Trace(steps, tr) && Init(tr[0]) && 0 <= d < j < |steps|
    requires InCleanup(tr[j], o) && InCleanup(tr[j + 1], o)
    requires !(steps[j].DecideObj? && steps[j].o == o)
    requires Cleansing(steps, tr, d, j, o, all, ObjPcOf(tr[j], o))
    ensures Cleansing(steps, tr, d, j + 1, o, all, ObjPcOf(tr[j + 1], o))
    ensures var pc, to := ObjPcOf(tr[j], o), ObjPcOf(tr[j + 1], o);
      to.snap == pc.snap && to.exclude == pc.exclude && to.goal == pc.goal
  {
    PcAt(steps, tr, j, o);
    var step, pc, to := steps[j], ObjPcOf(tr[j], o), ObjPcOf(tr[j + 1], o);
    var done: set<string> := {};
    if IsOf(step, o) {
      GoesOnCleaning(tr[j], step);
      if to.todo != pc.todo {
        if step.SkipTarget? || step.LockTarget? {
          done := {step.t};
        } else {
          TargetHandled(steps, tr, j, o);
          done := {pc.target};
        }
      }
    }
    assert to.todo == pc.todo - done;
    CleansingLater(steps, tr, d, j, o, all, pc, to, done);
  }

  ghost predicate InCleanup(s: State, o: Key) {
    ObjPcOf(s, o).Cleaning? || ObjPcOf(s, o).CleaningAt?
  }

  /** The cleanup has gone on since step `d`, which started it with the targets in `all`. */
  ghost predicate GoesBackTo(steps: seq<Step>, tr: seq<State>, d: int, o: Key, all: set<string>, pc: ObjPc)
    requires |tr| == |steps| + 1 && 0 <= d < |steps| && (pc.Cleaning? || pc.CleaningAt?)
  {
    steps[d].DecideObj? && steps[d].o == o && InCleanup(tr[d + 1], o) &&
    var first := ObjPcOf(tr[d + 1], o);
    first.todo == all && first.snap == pc.snap && first.exclude == pc.exclude && first.goal == pc.goal
  }

  lemma StartIsDecision(steps: seq<Step>, tr: seq<State>, d: int, o: Key, all: set<string>, pc: ObjPc)
    requires Trace(steps, tr) && 0 <= d < |steps| && (pc.Cleaning? || pc.CleaningAt?)
    requires GoesBackTo(steps, tr, d, o, all, pc)
    ensures DecidesOn(steps, tr, d, o, all, pc)
  {
    PcAt(steps, tr, d, o);
    StartsCleaning(tr[d], steps[d]);
  }

  lemma CleansingStarts(steps: seq<Step>, tr: seq<State>, d: int, o: Key)
    requires |tr| == |steps| + 1 && 0 <= d < |steps| && InCleanup(tr[d + 1], o)
    ensures var pc := ObjPcOf(tr[d + 1], o); Cleansing(steps, tr, d, d + 1, o, pc.todo, pc)
  {
  }

  lemma OnlyDecisionsStart(steps: seq<Step>, tr: seq<State>, d: int, o: Key)
    requires Trace(steps, tr) && 0 <= d < |steps| && InCleanup(tr[d + 1], o)
    ensures InCleanup(tr[d], o) <==> !(steps[d].DecideObj? && steps[d].o == o)
  {
    PcAt(steps, tr, d, o);
    if IsOf(steps[d], o) && !steps[d].DecideObj? { GoesOnCleaning(tr[d], steps[d]); }
  }

  lemma {:induction false} CleansingAt(steps: seq<Step>, tr: seq<State>, j: int, o: Key) returns (d: int, all: set<string>)
    requires Trace(steps, tr) && Init(tr[0]) && 0 <= j <= |steps| && InCleanup(tr[j], o)
    ensures 0 <= d < j && Cleansing(steps, tr, d, j, o, all, ObjPcOf(tr[j], o))
    ensures GoesBackTo(steps, tr, d, o, all, ObjPcOf(tr[j], o))
    decreases j
  {
    StartsIdle(tr, o);
    assert j > 0;
    OnlyDecisionsStart(steps, tr, j - 1, o);
    if InCleanup(tr[j - 1], o) {
      d, all := CleansingAt(steps, tr, j - 1, o);
      CleansingStep(steps, tr, d, j - 1, o, all);
    } else {
      d := j - 1;
      all := ObjPcOf(tr[j], o).todo;
      CleansingStarts(steps, tr, d, o);
    }
  }

  /** `t` is one of the comma-separated parts of the annotation, or one of the other references, without blanks. */
  ghost predicate Named(t: string, annotation: string, others: seq<string>) {
    t != "" && exists p :: (p in Split(annotation, ',') || p in others) && t == TrimSpace(p)
  }

  lemma NamedIsTarget(t: string, annotation: string, others: seq<string>)
    ensures Named(t, annotation, others) <==> t in TargetSet(annotation, others)
  {
  }

  /** A write that drops the finalizer or a recorded target is prepared only at the end of a cleanup. */
  lemma IntoForgetting(s: State, step: Step, t: string)
    requires !ByUser(step) && !ByRouter(step) && ObjectEnabled(s, step) && Inv(s)
    requires var to := ObjectMove(s, step);
      to.Put? && ((to.snap.finalizer && !to.next.finalizer) ||
                  (t in Decode(to.snap.annotation) && t !in Decode(to.next.annotation)))
    ensures step.ReachGoal?
  {
    assert ObjOk(s, step.o);
    if step.DecideObj? { DecideStores(step.o.ns, ObjPcOf(s, step.o).snap, step.res); }
  }

  lemma GoalOfDecision(ns: string, snap: Obj, res: Resolution)
    requires Decide(ns, snap, res).CleanUp?
    ensures var a := Decide(ns, snap, res);
      && (a.goal.Finalize? <==> snap.deleting)
      && (a.goal.Finalize? ==> a.exclude == "" && a.todo == TargetSet(snap.annotation, [snap.statusRef, snap.specRef]))
      && (a.goal.CompactTo? ==> a.exclude == a.goal.ref && a.todo == TargetSet(snap.annotation, [snap.statusRef]))
  {
  }

  lemma NothingLeft(steps: seq<Step>, tr: seq<State>, d: int, n: int, o: Key, all: set<string>)
    requires |tr| == |steps| + 1 && 0 <= d < n <= |steps| && ObjPcOf(tr[n], o).Cleaning? && ObjPcOf(tr[n], o).todo == {}
    requires Cleansing(steps, tr, d, n, o, all, ObjPcOf(tr[n], o))
    ensures AllHandled(steps, tr, d, n, o, all, ObjPcOf(tr[n], o).exclude)
  {
    assert all - {} == all;
  }

  /** A cleanup that ended at step `n`, and what it had decided to do. */
  lemma FinishedCleanup(steps: seq<Step>, tr: seq<State>, n: int, o: Key) returns (d: int, all: set<string>)
    requires Trace(steps, tr) && Init(tr[0]) && 0 <= n < |steps| && steps[n] == ReachGoal(o)
    ensures 0 <= d < n && SamePass(tr, o, d, n) && ObjPcOf(tr[n], o).Cleaning?
    ensures DecidesOn(steps, tr, d, o, all, ObjPcOf(tr[n], o))
    ensures AllHandled(steps, tr, d, n, o, all, ObjPcOf(tr[n], o).exclude)
  {
    PcAt(steps, tr, n, o);
    d, all := CleansingAt(steps, tr, n, o);
    StartIsDecision(steps, tr, d, o, all, ObjPcOf(tr[n], o));
    NothingLeft(steps, tr, d, n, o, all);
  }

  lemma HandledWithin(steps: seq<Step>, tr: seq<State>, d: int, n: int, j: int, o: Key, t: string, keep: string)
    requires |tr| == |steps| + 1 && 0 <= d <= n <= j <= |steps| && Handled(steps, tr, d, n, o, t, keep)
    ensures Handled(steps, tr, d, j, o, t, keep)
  {
    var m :| d < m < n && HandledAt(steps, tr, m, o, t, keep);
    assert d < m < j && HandledAt(steps, tr, m, o, t, keep);
  }

  /** The store at `j` drops the finalizer or a recorded target, so its pass has just finished a cleanup. */
  lemma ForgettingPass(steps: seq<Step>, tr: seq<State>, j: int, o: Key, t: string) returns (d: int, n: int, all: set<string>)
    requires Trace(steps, tr) && Init(tr[0]) && 0 <= j < |steps| && steps[j] == StoreObjOk(o)
    requires ObjPcOf(tr[j], o).Put?
    requires var pc := ObjPcOf(tr[j], o);
      || (pc.snap.finalizer && !pc.next.finalizer)
      || (t in Decode(pc.snap.annotation) && t !in Decode(pc.next.annotation))
    ensures 0 <= d < n < j && SamePass(tr, o, d, j) && steps[n] == ReachGoal(o)
    ensures ObjPcOf(tr[n], o).Cleaning? && ObjPcOf(tr[n], o).snap == ObjPcOf(tr[j], o).snap
    ensures Reached(ObjPcOf(tr[n], o)) == ObjPcOf(tr[j], o)
    ensures DecidesOn(steps, tr, d, o, all, ObjPcOf(tr[n], o))
    ensures AllHandled(steps, tr, d, n, o, all, ObjPcOf(tr[n], o).exclude)
  {
    n := PreparedAt(steps, tr, j, o);
    InvAt(steps, tr, n);
    IntoForgetting(tr[n], steps[n], t);
    d, all := FinishedCleanup(steps, tr, n, o);
  }

  /**
    Over whole runs: a finalizer goes only from an object that is being deleted, at the end of a pass that has handled
    every target recorded in the annotation, the status and the specification.
   */
  lemma FinalizerStory(steps: seq<Step>, tr: seq<State>, j: int, o: Key)
    requires Trace(steps, tr) && Init(tr[0]) && 0 <= j < |steps|
    requires o in tr[j].objs && tr[j].objs[o].finalizer && !(o in tr[j + 1].objs && tr[j + 1].objs[o].finalizer)
    ensures var obj := tr[j].objs[o];
      steps[j] == StoreObjOk(o) && obj.deleting &&
      exists d :: 0 <= d < j && SamePass(tr, o, d, j) &&
        forall t :: Named(t, obj.annotation, [obj.statusRef, obj.specRef]) ==> Handled(steps, tr, d, j, o, t, "")
  {
    PcAt(steps, tr, j, o);
    if steps[j] != StoreObjOk(o) { KeepsFinalizer(tr[j], steps[j], o); }
    Stored(steps, tr, j, o);
    var obj := tr[j].objs[o];
    var d, n, all := ForgettingPass(steps, tr, j, o, "");
    GoalOfDecision(o.ns, obj, steps[d].res);
    forall t | Named(t, obj.annotation, [obj.statusRef, obj.specRef]) ensures Handled(steps, tr, d, j, o, t, "") {
      NamedIsTarget(t, obj.annotation, [obj.statusRef, obj.specRef]);
      HandledWithin(steps, tr, d, n, j, o, t, "");
    }
  }

  lemma KeepsFinalizer(s: State, step: Step, o: Key)
    requires Enabled(s, step) && step != StoreObjOk(o) && o in s.objs
    ensures s.objs[o].finalizer ==> o in Next(s, step).objs && Next(s, step).objs[o].finalizer
    ensures o in Next(s, step).objs ==> Next(s, step).objs[o].annotation == s.objs[o].annotation
  {
    if ByUser(step) {
      UserKeeps(s, step, o);
    } else if ByRouter(step) {
      RouterKeepsObjs(s, step);
    } else {
      ObjectKeepsObj(s, step, o);
    }
  }

  lemma ObjectKeepsObj(s: State, step: Step, o: Key)
    requires !ByUser(step) && !ByRouter(step) && ObjectEnabled(s, step) && step != StoreObjOk(o) && o in s.objs
    ensures o in ObjectNext(s, step).objs && ObjectNext(s, step).objs[o] == s.objs[o]
  {
  }

  /**
    Over whole runs: a recorded target is dropped from the annotation of an object that stays only at the end of a
    pass that has handled every target in the annotation and the status; the target that is kept is the annotation
    that is stored.
   */
  lemma CompactionStory(steps: seq<Step>, tr: seq<State>, j: int, o: Key, t: string)
    requires Trace(steps, tr) && Init(tr[0]) && 0 <= j < |steps| && o in tr[j].objs && o in tr[j + 1].objs
    requires Recorded(t, tr[j].objs[o].annotation) && !Recorded(t, tr[j + 1].objs[o].annotation)
    ensures var obj := tr[j].objs[o];
      steps[j] == StoreObjOk(o) && !obj.deleting &&
      exists d :: 0 <= d < j && SamePass(tr, o, d, j) &&
        forall x :: Named(x, obj.annotation, [obj.statusRef]) ==> Handled(steps, tr, d, j, o, x, tr[j + 1].objs[o].annotation)
  {
    var obj, stored := tr[j].objs[o], tr[j + 1].objs[o];
    NamedIsTarget(t, obj.annotation, []);
    NamedIsTarget(t, stored.annotation, []);
    PcAt(steps, tr, j, o);
    if steps[j] != StoreObjOk(o) { KeepsFinalizer(tr[j], steps[j], o); }
    Stored(steps, tr, j, o);
    var d, n, all := ForgettingPass(steps, tr, j, o, t);
    GoalOfDecision(o.ns, obj, steps[d].res);
    forall x | Named(x, obj.annotation, [obj.statusRef]) ensures Handled(steps, tr, d, j, o, x, stored.annotation) {
      NamedIsTarget(x, obj.annotation, [obj.statusRef]);
      HandledWithin(steps, tr, d, n, j, o, x, stored.annotation);
    }
  }

  /* ---- How a pass that cleans up ends ---- */

  /** The pass that decided at `d` to clean up is still at it, or has prepared what it wanted to store. */
  ghost predicate OnCourse(steps: seq<Step>, tr: seq<State>, d: int, k: int, o: Key, a: Action)
    requires |tr| == |steps| + 1 && 0 <= d < k <= |steps| && a.CleanUp?
  {
    var pc := ObjPcOf(tr[k], o);
    || (InCleanup(tr[k], o) && Aims(pc, ObjPcOf(tr[d], o), a) && Cleansing(steps, tr, d, k, o, a.todo, pc))
    || (pc.Put? && exists n :: d < n < k && EndsCleanup(steps, tr, d, n, o, a, pc))
  }

  ghost predicate Aims(pc: ObjPc, from: ObjPc, a: Action)
    requires (pc.Cleaning? || pc.CleaningAt?) && a.CleanUp?
  {
    from == Read(pc.snap) && pc.exclude == a.exclude && pc.goal == a.goal
  }

  ghost predicate EndsCleanup(steps: seq<Step>, tr: seq<State>, d: int, n: int, o: Key, a: Action, to: ObjPc)
    requires |tr| == |steps| + 1 && 0 <= d < n < |steps| && a.CleanUp?
  {
    var pc := ObjPcOf(tr[n], o);
    steps[n] == ReachGoal(o) && pc.Cleaning? && pc.todo == {} && Aims(pc, ObjPcOf(tr[d], o), a) &&
    Cleansing(steps, tr, d, n, o, a.todo, pc) && to == Reached(pc)
  }

  lemma OutOfCleaning(s: State, step: Step)
    requires !ByUser(step) && !ByRouter(step) && ObjectEnabled(s, step)
    requires ObjPcOf(s, step.o).Cleaning? || ObjPcOf(s, step.o).CleaningAt?
    requires step != FailObj(step.o, true) && !ObjectMove(s, step).Idle?
    ensures var to := ObjectMove(s, step);
      to.Cleaning? || to.CleaningAt? ||
      (step.ReachGoal? && ObjPcOf(s, step.o).Cleaning? && ObjPcOf(s, step.o).todo == {} && to == Reached(ObjPcOf(s, step.o)))
  {
  }

  lemma OnCourseStep(steps: seq<Step>, tr: seq<State>, d: int, k: int, o: Key, a: Action)
    requires Trace(steps, tr) && Init(tr[0]) && 0 <= d < k < |steps| && a.CleanUp? && OnCourse(steps, tr, d, k, o, a)
    requires steps[k] != FailObj(o, true) && !ObjPcOf(tr[k + 1], o).Idle?
    ensures OnCourse(steps, tr, d, k + 1, o, a)
  {
    PcAt(steps, tr, k, o);
    var pc, to := ObjPcOf(tr[k], o), ObjPcOf(tr[k + 1], o);
    if pc.Put? {
      PutStays(tr[k], steps[k], o);
      var n :| d < n < k && EndsCleanup(steps, tr, d, n, o, a, pc);
      assert d < n < k + 1 && EndsCleanup(steps, tr, d, n, o, a, to);
    } else {
      if IsOf(steps[k], o) { OutOfCleaning(tr[k], steps[k]); }
      if InCleanup(tr[k + 1], o) {
        OnlyDecisionsStart(steps, tr, k, o);
        CleansingStep(steps, tr, d, k, o, a.todo);
      } else {
        assert EndsCleanup(steps, tr, d, k, o, a, to);
      }
    }
  }

  ghost predicate Unreported(steps: seq<Step>, o: Key, d: int, j: int)
    requires 0 <= d <= j <= |steps|
  {
    forall k :: d < k < j ==> steps[k] != FailObj(o, true)
  }

  lemma {:induction false} OnCourseAt(steps: seq<Step>, tr: seq<State>, d: int, j: int, o: Key, a: Action)
    requires Trace(steps, tr) && Init(tr[0]) && 0 <= d < j <= |steps| && steps[d].DecideObj? && steps[d].o == o
    requires ObjPcOf(tr[d], o).Read? && a.CleanUp? && Decide(o.ns, ObjPcOf(tr[d], o).snap, steps[d].res) == a
    requires SamePass(tr, o, d, j) && Unreported(steps, o, d, j)
    ensures OnCourse(steps, tr, d, j, o, a)
    decreases j
  {
    if j == d + 1 {
      PcAt(steps, tr, d, o);
      CleansingStarts(steps, tr, d, o);
    } else {
      OnCourseAt(steps, tr, d, j - 1, o, a);
      OnCourseStep(steps, tr, d, j - 1, o, a);
    }
  }

  /**
    Over whole runs: a pass that finds no router chosen for a live object that some router is recorded for, and that
    stores something without reporting a failure, has handled every recorded target and leaves no annotation.
   */
  lemma ImplicitStory(steps: seq<Step>, tr: seq<State>, d: int, j: int, o: Key)
    requires Trace(steps, tr) && Init(tr[0]) && 0 <= d < j < |steps|
    requires steps[d] == DecideObj(o, Implicit) && steps[j] == StoreObjOk(o)
    requires SamePass(tr, o, d, j) && Unreported(steps, o, d, j)
    requires ObjPcOf(tr[d], o).Read? && var snap := ObjPcOf(tr[d], o).snap;
      !snap.deleting && snap.ready && snap.finalizer && snap.annotation != ""
    ensures o in tr[j].objs && o in tr[j + 1].objs
    ensures tr[j + 1].objs[o] == tr[j].objs[o].(annotation := "", rv := tr[j].clock)
    ensures var obj := tr[j].objs[o];
      forall t :: Named(t, obj.annotation, [obj.statusRef]) ==> Handled(steps, tr, d, j, o, t, "")
  {
    var a := Decide(o.ns, ObjPcOf(tr[d], o).snap, Implicit);
    OnCourseAt(steps, tr, d, j, o, a);
    Stored(steps, tr, j, o);
    var pc := ObjPcOf(tr[j], o);
    var n :| d < n < j && EndsCleanup(steps, tr, d, n, o, a, pc);
    var obj := tr[j].objs[o];
    NothingLeft(steps, tr, d, n, o, a.todo);
    GoalOfDecision(o.ns, obj, Implicit);
    forall t | Named(t, obj.annotation, [obj.statusRef]) ensures Handled(steps, tr, d, j, o, t, "") {
      NamedIsTarget(t, obj.annotation, [obj.statusRef]);
      HandledWithin(steps, tr, d, n, j, o, t, "");
    }
  }

  ghost predicate Recorded(t: string, annotation: string) {
    Named(t, annotation, [])
  }

  /** Such a pass records the reference of the status if only that is left, so that a later pass can clean it. */
  lemma ImplicitRecords(steps: seq<Step>, tr: seq<State>, d: int, j: int, o: Key)
    requires Trace(steps, tr) && Init(tr[0]) && 0 <= d < j < |steps|
    requires steps[d] == DecideObj(o, Implicit) && steps[j] == StoreObjOk(o) && SamePass(tr, o, d, j)
    requires ObjPcOf(tr[d], o).Read? && var snap := ObjPcOf(tr[d], o).snap;
      !snap.deleting && snap.ready && snap.finalizer && snap.annotation == "" && snap.statusRef != ""
    ensures o in tr[j].objs && o in tr[j + 1].objs
    ensures var now, next := tr[j].objs[o], tr[j + 1].objs[o];
      && next == now.(annotation := next.annotation, rv := tr[j].clock)
      && RecordsJust(next.annotation, now.annotation, [now.statusRef])
  {
    PcAt(steps, tr, d, o);
    InvAt(steps, tr, d);
    assert ObjOk(tr[d], o);
    StatusRecords(ObjPcOf(tr[d], o).snap.statusRef);
    PutUntil(steps, tr, d + 1, j, o);
    Stored(steps, tr, j, o);
  }

  lemma StatusRecords(statusRef: string)
    requires Clean(statusRef)
    ensures RecordsJust(Encode(TargetSet("", [statusRef])), "", [statusRef])
  {
    var all := TargetSet("", [statusRef]);
    TrimTrimmed(statusRef);
    DecodeClean("");
    EncodeRoundTrip(all);
    forall t ensures Recorded(t, Encode(all)) <==> Named(t, "", [statusRef]) {
      NamedIsTarget(t, Encode(all), []);
      NamedIsTarget(t, "", [statusRef]);
    }
  }

  /**
    A pass that resolves its reference first records the router next to all that is recorded already, and changes
    nothing else, unless the annotation holds just that router or all of this.
   */
  lemma ResolvedRecords(steps: seq<Step>, tr: seq<State>, d: int, j: int, o: Key, key: Key)
    requires Trace(steps, tr) && Init(tr[0]) && 0 <= d < j < |steps|
    requires steps[d] == DecideObj(o, Resolved(key)) && steps[j] == StoreObjOk(o) && SamePass(tr, o, d, j)
    requires ObjPcOf(tr[d], o).Read? && var snap := ObjPcOf(tr[d], o).snap;
      && !snap.deleting && snap.ready && snap.finalizer && snap.annotation != RefStorage(o.ns, key)
      && !RecordsJust(snap.annotation, snap.annotation, [snap.statusRef, RefStorage(o.ns, key)])
    ensures o in tr[j].objs && o in tr[j + 1].objs
    ensures var now, next := tr[j].objs[o], tr[j + 1].objs[o];
      && next == now.(annotation := next.annotation, rv := tr[j].clock)
      && RecordsJust(next.annotation, now.annotation, [now.statusRef, RefStorage(o.ns, key)])
  {
    PcAt(steps, tr, d, o);
    InvAt(steps, tr, d);
    assert ObjOk(tr[d], o);
    var snap := ObjPcOf(tr[d], o).snap;
    var others := [snap.statusRef, RefStorage(o.ns, key)];
    UnionRecords(snap.annotation, snap.statusRef, o.ns, key);
    PutUntil(steps, tr, d + 1, j, o);
    Stored(steps, tr, j, o);
  }

  /** The annotation records the targets of another one and some more, and no others. */
  ghost predicate RecordsJust(annotation: string, before: string, others: seq<string>) {
    forall t :: Recorded(t, annotation) <==> Named(t, before, others)
  }

  lemma UnionRecords(annotation: string, statusRef: string, ns: string, key: Key)
    requires CleanStatus(Obj(0, false, false, false, "", annotation, statusRef, false)) && ValidKey(key)
    ensures var others := [statusRef, RefStorage(ns, key)];
      RecordsJust(Encode(TargetSet(annotation, others)), annotation, others)
  {
    var others := [statusRef, RefStorage(ns, key)];
    var all := TargetSet(annotation, others);
    RefRoundTrip(ns, key);
    DecodeClean(annotation);
    assert forall t :: t in all ==> Clean(t) by { OthersAreClean(statusRef, RefStorage(ns, key)); }
    EncodeRoundTrip(all);
    forall t ensures Recorded(t, Encode(all)) <==> Named(t, annotation, others) {
      NamedIsTarget(t, Encode(all), []);
      NamedIsTarget(t, annotation, others);
    }
  }

  lemma OthersAreClean(a: string, b: string)
    requires (a == "" || Clean(a)) && Clean(b)
    ensures forall t :: t in Tokens([a, b]) ==> Clean(t)
  {
    TrimTrimmed(a);
    TrimTrimmed(b);
  }
}
