/**
  What the passes of a router's worker have done, over whole runs and between the steps of all other workers: which
  devices they sweep, when a device leaves a router's history, when a router disappears, and what each pass stores.
 */
module ClusterSweeps {
  import opened Text
  import opened Targets
  import opened Cluster
  import opened ClusterSafety
  import opened ClusterRuns
  import opened ClusterTheorems
  import opened ClusterStories

  /* ---- The steps of one pass ---- */

  /** The steps after `i` up to `j` belong to the pass of `r` that step `i` is part of. */
  ghost predicate SameSweep(tr: seq<State>, r: Key, i: int, j: int)
    requires 0 <= i <= j < |tr|
  {
    forall k :: i < k <= j ==> !RouterPcOf(tr[k], r).RIdle?
  }

  predicate IsOfRouter(step: Step, r: Key) {
    ByRouter(step) && step.r == r
  }

  lemma RouterPcMoves(s: State, step: Step, r: Key)
    requires Enabled(s, step)
    ensures !IsOfRouter(step, r) ==> RouterPcOf(Next(s, step), r) == RouterPcOf(s, r)
    ensures IsOfRouter(step, r) ==> RouterEnabled(s, step) && RouterPcOf(Next(s, step), r) == RouterMove(s, step)
  {
    if !ByRouter(step) {
      OtherStep(s, step);
    } else if step.r != r {
      RouterMovesOne(s, step, r);
    }
  }

  lemma RouterPcAt(steps: seq<Step>, tr: seq<State>, i: int, r: Key)
    requires Trace(steps, tr) && 0 <= i < |steps|
    ensures Enabled(tr[i], steps[i]) && tr[i + 1] == Next(tr[i], steps[i])
    ensures !IsOfRouter(steps[i], r) ==> RouterPcOf(tr[i + 1], r) == RouterPcOf(tr[i], r)
    ensures IsOfRouter(steps[i], r) ==>
      RouterEnabled(tr[i], steps[i]) && RouterPcOf(tr[i + 1], r) == RouterMove(tr[i], steps[i])
  {
    assert StepAt(steps, tr, i);
    RouterPcMoves(tr[i], steps[i], r);
  }

  lemma StartsRIdle(tr: seq<State>, r: Key)
    requires tr != [] && Init(tr[0])
    ensures RouterPcOf(tr[0], r) == RIdle
  {
  }

  /* ---- Claims, in terms of what is stored ---- */

  /** A pass sorts a device into the claimed ones exactly if another router that stays lists it, and otherwise sweeps it. */
  lemma ClaimedExactly(s: State, r: Key, e: Ep)
    requires Enabled(s, Classify(r, e))
    ensures var pc, to := RouterPcOf(s, r), RouterPcOf(Next(s, Classify(r, e)), r);
      && to.RSweep? && to.snap == pc.snap && to.todo == pc.todo - {e} && to.swept == pc.swept
      && to.claimed == pc.claimed + (if ElsewhereListed(s, r, e) then {e} else {})
      && to.owned == pc.owned + (if ElsewhereListed(s, r, e) then {} else {e})
  {
    ClaimedMeans(s, r, e);
    RouterPcMoves(s, Classify(r, e), r);
    var pc := RouterPcOf(s, r);
    assert pc.claimed + {} == pc.claimed && pc.owned + {} == pc.owned;
  }

  /**
    The devices that a pass has to clean for the router it read: all usable ones in the history (or, without a
    history, in the configuration) if the router is being deleted, and otherwise those that have left the
    configuration.
   */
  ghost predicate ToClean(r: Router, e: Ep) {
    if r.deleting then ToVisit(r, e)
    else Usable(r.applied, e) && !HasKey(r.spec, e)
  }

  lemma HasKeyMeans(es: seq<Endpoint>, e: Ep)
    ensures e in Keys(es) <==> HasKey(es, e)
  {
  }

  /* ---- A pass that sweeps ---- */

  ghost predicate FoundClaimed(steps: seq<Step>, tr: seq<State>, l: int, j: int, r: Key, e: Ep)
    requires |tr| == |steps| + 1 && 0 <= l <= j <= |steps|
  {
    exists c :: l < c < j && steps[c] == Classify(r, e) && ElsewhereListed(tr[c], r, e)
  }

  ghost predicate FoundUnclaimed(steps: seq<Step>, tr: seq<State>, l: int, j: int, r: Key, e: Ep)
    requires |tr| == |steps| + 1 && 0 <= l <= j <= |steps|
  {
    exists c :: l < c < j && steps[c] == Classify(r, e) && !ElsewhereListed(tr[c], r, e)
  }

  /** The device was swept between the two steps: right afterwards no managed entry was left on it. */
  ghost predicate HasSwept(steps: seq<Step>, tr: seq<State>, l: int, j: int, r: Key, e: Ep)
    requires |tr| == |steps| + 1 && 0 <= l <= j <= |steps|
  {
    exists m :: l < m < j && steps[m] == SweepAt(r, e) && Clear(tr[m + 1], e)
  }

  ghost predicate Clear(s: State, e: Ep) {
    forall sp :: sp in s.dev ==> sp.ep != e
  }

  /** What the pass that took the fence at step `l` knows about device `e` at `j`. */
  ghost predicate Accounted(steps: seq<Step>, tr: seq<State>, l: int, j: int, r: Key, pc: RouterPc, e: Ep)
    requires |tr| == |steps| + 1 && 0 <= l < j <= |steps| && pc.RSweep?
  {
    && (e in pc.claimed ==> FoundClaimed(steps, tr, l, j, r, e))
    && (e in pc.owned || e in pc.swept ==> FoundUnclaimed(steps, tr, l, j, r, e))
    && (e in pc.swept ==> HasSwept(steps, tr, l, j, r, e))
    && (ToClean(pc.snap, e) <==> e in pc.todo || e in pc.claimed || e in pc.owned || e in pc.swept)
  }

  /** At step `l` the pass took the fence and read the router. */
  ghost predicate TookFence(steps: seq<Step>, tr: seq<State>, l: int, r: Key, snap: Router)
    requires |tr| == |steps| + 1 && 0 <= l < |steps|
  {
    && steps[l].LockRouter? && steps[l].r == r && r in tr[l].routers && tr[l].routers[r] == snap
    && (if snap.deleting then snap.finalizer else steps[l].owned && RouterPcOf(tr[l], r) == RWait(false))
  }

  ghost predicate Sweeping(steps: seq<Step>, tr: seq<State>, l: int, j: int, r: Key, pc: RouterPc)
    requires |tr| == |steps| + 1 && 0 <= l < j <= |steps| && pc.RSweep?
  {
    && TookFence(steps, tr, l, r, pc.snap) && SameSweep(tr, r, l, j) && (pc.final <==> pc.snap.deleting)
    && forall e :: Accounted(steps, tr, l, j, r, pc, e)
  }

  lemma FenceTaken(steps: seq<Step>, tr: seq<State>, l: int, r: Key)
    requires Trace(steps, tr) && 0 <= l < |steps| && steps[l].LockRouter? && steps[l].r == r
    requires RouterPcOf(tr[l + 1], r).RSweep?
    ensures Sweeping(steps, tr, l, l + 1, r, RouterPcOf(tr[l + 1], r))
  {
    RouterPcAt(steps, tr, l, r);
    var pc, n := RouterPcOf(tr[l + 1], r), l + 1;
    forall e ensures Accounted(steps, tr, l, n, r, pc, e) {
      VisitsMeans(pc.snap, e);
      FilterMeans(pc.snap.applied, e);
      HasKeyMeans(pc.snap.spec, e);
    }
  }

  lemma FoundLater(steps: seq<Step>, tr: seq<State>, l: int, j: int, r: Key, e: Ep)
    requires |tr| == |steps| + 1 && 0 <= l < j < |steps|
    ensures FoundClaimed(steps, tr, l, j, r, e) ==> FoundClaimed(steps, tr, l, j + 1, r, e)
    ensures FoundUnclaimed(steps, tr, l, j, r, e) ==> FoundUnclaimed(steps, tr, l, j + 1, r, e)
    ensures HasSwept(steps, tr, l, j, r, e) ==> HasSwept(steps, tr, l, j + 1, r, e)
  {
  }

  lemma SweptNow(steps: seq<Step>, tr: seq<State>, l: int, j: int, r: Key, e: Ep)
    requires Trace(steps, tr) && 0 <= l < j < |steps| && steps[j] == SweepAt(r, e)
    ensures HasSwept(steps, tr, l, j + 1, r, e)
  {
    RouterPcAt(steps, tr, j, r);
    assert Clear(tr[j + 1], e);
  }

  lemma FoundNow(steps: seq<Step>, tr: seq<State>, l: int, j: int, r: Key, e: Ep)
    requires |tr| == |steps| + 1 && 0 <= l < j < |steps| && steps[j] == Classify(r, e)
    ensures if ElsewhereListed(tr[j], r, e) then FoundClaimed(steps, tr, l, j + 1, r, e)
            else FoundUnclaimed(steps, tr, l, j + 1, r, e)
  {
  }

  /** How a worker gets to sweep, and on with it. */
  lemma IntoSweep(s: State, step: Step)
    requires ByRouter(step) && RouterEnabled(s, step) && RouterMove(s, step).RSweep?
    ensures var pc := RouterPcOf(s, step.r);
      step.LockRouter? || (pc.RSweep? && (step.Classify? || step.SweepAt?))
    ensures step.LockRouter? ==> RouterPcOf(s, step.r).RWait?
  {
  }

  /** A sorted device. */
  lemma Sorted(steps: seq<Step>, tr: seq<State>, l: int, j: int, r: Key, x: Ep, e: Ep)
    requires Trace(steps, tr) && 0 <= l < j < |steps| && steps[j] == Classify(r, x)
    requires RouterPcOf(tr[j], r).RSweep? && Accounted(steps, tr, l, j, r, RouterPcOf(tr[j], r), e)
    ensures RouterPcOf(tr[j + 1], r).RSweep? && Accounted(steps, tr, l, j + 1, r, RouterPcOf(tr[j + 1], r), e)
    ensures RouterPcOf(tr[j + 1], r).snap == RouterPcOf(tr[j], r).snap
  {
    RouterPcAt(steps, tr, j, r);
    ClaimedExactly(tr[j], r, x);
    FoundNow(steps, tr, l, j, r, x);
    FoundLater(steps, tr, l, j, r, e);
    assert RouterPcOf(tr[j], r).todo == RouterPcOf(tr[j + 1], r).todo + {x};
  }

  lemma SweepMoves(s: State, r: Key, x: Ep)
    requires Enabled(s, SweepAt(r, x))
    ensures var pc, to := RouterPcOf(s, r), RouterPcOf(Next(s, SweepAt(r, x)), r);
      && pc.RSweep? && to.RSweep? && to.snap == pc.snap && to.todo == pc.todo && to.claimed == pc.claimed
      && to.swept == pc.swept + {x} && pc.owned == to.owned + {x}
  {
    RouterPcMoves(s, SweepAt(r, x), r);
  }

  /** A swept device. */
  lemma Swept(steps: seq<Step>, tr: seq<State>, l: int, j: int, r: Key, x: Ep, e: Ep)
    requires Trace(steps, tr) && 0 <= l < j < |steps| && steps[j] == SweepAt(r, x)
    requires RouterPcOf(tr[j], r).RSweep? && Accounted(steps, tr, l, j, r, RouterPcOf(tr[j], r), e)
    ensures RouterPcOf(tr[j + 1], r).RSweep? && Accounted(steps, tr, l, j + 1, r, RouterPcOf(tr[j + 1], r), e)
    ensures RouterPcOf(tr[j + 1], r).snap == RouterPcOf(tr[j], r).snap
  {
    assert StepAt(steps, tr, j);
    SweepMoves(tr[j], r, x);
    SweptNow(steps, tr, l, j, r, x);
    FoundLater(steps, tr, l, j, r, e);
  }

  /** A step of somebody else. */
  lemma Waited(steps: seq<Step>, tr: seq<State>, l: int, j: int, r: Key, pc: RouterPc, e: Ep)
    requires |tr| == |steps| + 1 && 0 <= l < j < |steps| && pc.RSweep? && Accounted(steps, tr, l, j, r, pc, e)
    ensures Accounted(steps, tr, l, j + 1, r, pc, e)
  {
    FoundLater(steps, tr, l, j, r, e);
  }

  lemma SweepingStep(steps: seq<Step>, tr: seq<State>, l: int, j: int, r: Key)
    requires Trace(steps, tr) && 0 <= l < j < |steps|
    requires RouterPcOf(tr[j], r).RSweep? && RouterPcOf(tr[j + 1], r).RSweep?
    requires Sweeping(steps, tr, l, j, r, RouterPcOf(tr[j], r))
    ensures Sweeping(steps, tr, l, j + 1, r, RouterPcOf(tr[j + 1], r))
  {
    RouterPcAt(steps, tr, j, r);
    var pc, to := RouterPcOf(tr[j], r), RouterPcOf(tr[j + 1], r);
    if IsOfRouter(steps[j], r) { IntoSweep(tr[j], steps[j]); }
    var n := j + 1;
    forall e ensures Accounted(steps, tr, l, n, r, to, e) {
      assert Accounted(steps, tr, l, j, r, pc, e);
      if !IsOfRouter(steps[j], r) {
        Waited(steps, tr, l, j, r, pc, e);
      } else if steps[j].Classify? {
        Sorted(steps, tr, l, j, r, steps[j].e, e);
      } else {
        Swept(steps, tr, l, j, r, steps[j].e, e);
      }
    }
  }

  lemma {:induction false} SweepingAt(steps: seq<Step>, tr: seq<State>, j: int, r: Key) returns (l: int)
    requires Trace(steps, tr) && Init(tr[0]) && 0 <= j <= |steps| && RouterPcOf(tr[j], r).RSweep?
    ensures 0 <= l < j && Sweeping(steps, tr, l, j, r, RouterPcOf(tr[j], r))
    decreases j
  {
    StartsRIdle(tr, r);
    assert j > 0;
    if RouterPcOf(tr[j - 1], r).RSweep? {
      l := SweepingAt(steps, tr, j - 1, r);
      SweepingStep(steps, tr, l, j - 1, r);
    } else {
      l := j - 1;
      RouterPcAt(steps, tr, l, r);
      IntoSweep(tr[l], steps[l]);
      FenceTaken(steps, tr, l, r);
    }
  }

  /**
    Over whole runs: a device is swept only in a pass that has read the router under the fence, found the device
    among those to clean (so for a live router it is no longer in the configuration), and found no other router
    that stays listing it.  The sweep leaves no managed entry on that device, and touches no other device.
   */
  lemma SweepStory(steps: seq<Step>, tr: seq<State>, m: int, r: Key, e: Ep)
    requires Trace(steps, tr) && Init(tr[0]) && 0 <= m < |steps| && steps[m] == SweepAt(r, e)
    ensures exists l, router :: 0 <= l < m && SameSweep(tr, r, l, m) &&
              TookFence(steps, tr, l, r, router) && ToClean(router, e) && FoundUnclaimed(steps, tr, l, m, r, e)
    ensures forall sp :: sp in tr[m + 1].dev <==> sp in tr[m].dev && sp.ep != e
    ensures forall sp :: sp in tr[m + 1].dev ==> tr[m + 1].dev[sp] == tr[m].dev[sp]
  {
    RouterPcAt(steps, tr, m, r);
    var l := SweepingAt(steps, tr, m, r);
    assert Accounted(steps, tr, l, m, r, RouterPcOf(tr[m], r), e);
  }

  /* ---- What a pass stores ---- */

  /** The worker has prepared this write, whether or not it still holds the fence. */
  ghost predicate Prepared(pc: RouterPc, snap: Router, next: Router) {
    pc.RPut? && pc.snap == snap && pc.next == next
  }

  lemma RPutStays(s: State, step: Step, r: Key)
    requires Enabled(s, step) && RouterPcOf(s, r).RPut?
    ensures var pc, to := RouterPcOf(s, r), RouterPcOf(Next(s, step), r);
      to.RIdle? || Prepared(to, pc.snap, pc.next)
  {
    RouterPcMoves(s, step, r);
  }

  /** The write prepared at `j` was prepared by step `i` of the same pass. */
  lemma {:induction false} RouterPreparedAt(steps: seq<Step>, tr: seq<State>, j: int, r: Key) returns (i: int)
    requires Trace(steps, tr) && Init(tr[0]) && 0 <= j <= |steps| && RouterPcOf(tr[j], r).RPut?
    ensures 0 <= i < j && SameSweep(tr, r, i, j) && IsOfRouter(steps[i], r) && RouterEnabled(tr[i], steps[i])
    ensures !RouterPcOf(tr[i], r).RPut?
    ensures var pc := RouterPcOf(tr[j], r); Prepared(RouterMove(tr[i], steps[i]), pc.snap, pc.next)
    decreases j
  {
    StartsRIdle(tr, r);
    assert j > 0;
    RouterPcAt(steps, tr, j - 1, r);
    if RouterPcOf(tr[j - 1], r).RPut? {
      RPutStays(tr[j - 1], steps[j - 1], r);
      i := RouterPreparedAt(steps, tr, j - 1, r);
    } else {
      i := j - 1;
    }
  }

  /** Who prepares a write: only the end of a sweep takes anything away. */
  lemma IntoRPut(s: State, step: Step)
    requires ByRouter(step) && RouterEnabled(s, step) && RouterMove(s, step).RPut? && !RouterPcOf(s, step.r).RPut?
    ensures var to := RouterMove(s, step);
      || step.FinishSweep?
      || (step.DecideRouter? && RouterPcOf(s, step.r) == RRead(to.snap))
      || to.next == to.snap
  {
  }

  lemma DecisionKeeps(snap: Router, owned: bool)
    requires DecideRouterPc(snap, owned).RPut?
    ensures var to := DecideRouterPc(snap, owned);
      && to.snap == snap && !snap.deleting && (snap.finalizer ==> to.next.finalizer)
      && Keys(snap.applied) <= Keys(to.next.applied) <= Keys(snap.applied) + Keys(snap.spec)
  {
  }

  /** What a store of the worker of `r` leaves. */
  lemma RouterStored(steps: seq<Step>, tr: seq<State>, j: int, r: Key)
    requires Trace(steps, tr) && Init(tr[0]) && 0 <= j < |steps| && steps[j] == StoreRouterOk(r)
    ensures var pc := RouterPcOf(tr[j], r);
      && pc.RPut? && r in tr[j].routers && tr[j].routers[r] == pc.snap
      && tr[j + 1].routers == if pc.next.deleting && !pc.next.finalizer then tr[j].routers - {r}
                              else tr[j].routers[r := pc.next.(rv := tr[j].clock)]
  {
    RouterPcAt(steps, tr, j, r);
    InvAt(steps, tr, j);
    assert RouterOk(tr[j], r);
  }

  /** Only its own worker changes the finalizer and the history of a router. */
  lemma KeepsHistory(s: State, step: Step, r: Key)
    requires Enabled(s, step) && step != StoreRouterOk(r) && r in s.routers
    ensures r in Next(s, step).routers ==>
      Next(s, step).routers[r].finalizer == s.routers[r].finalizer && Next(s, step).routers[r].applied == s.routers[r].applied
    ensures r !in Next(s, step).routers ==> !s.routers[r].finalizer
  {
    if ByUser(step) {
      UserKeepsHistory(s, step, r);
    } else if ByRouter(step) {
      WorkerKeepsHistory(s, step, r);
    } else {
      ObjectKeepsRouters(s, step);
    }
  }

  lemma UserKeepsHistory(s: State, step: Step, r: Key)
    requires ByUser(step) && UserEnabled(s, step) && r in s.routers
    ensures r in UserNext(s, step).routers ==>
      UserNext(s, step).routers[r].finalizer == s.routers[r].finalizer &&
      UserNext(s, step).routers[r].applied == s.routers[r].applied
    ensures r !in UserNext(s, step).routers ==> !s.routers[r].finalizer
  {
    match step {
      case CreateObj(_, _, _) =>
      case EditObj(_, _, _) =>
      case DeleteObj(_) =>
      case CreateRouter(_, _) =>
      case EditRouter(_, _) =>
      case DeleteRouter(_) =>
      case CreateSecret(_) =>
      case DeleteSecret(_) =>
    }
  }

  lemma WorkerKeepsHistory(s: State, step: Step, r: Key)
    requires ByRouter(step) && RouterEnabled(s, step) && step != StoreRouterOk(r) && r in s.routers
    ensures r in RouterNext(s, step).routers && RouterNext(s, step).routers[r] == s.routers[r]
  {
  }

  lemma ObjectKeepsRouters(s: State, step: Step)
    requires !ByUser(step) && !ByRouter(step) && ObjectEnabled(s, step)
    ensures ObjectNext(s, step).routers == s.routers
  {
  }

  /** A sweep that is over has dealt with every device it had to clean. */
  ghost predicate DealtWith(steps: seq<Step>, tr: seq<State>, l: int, n: int, r: Key, router: Router)
    requires |tr| == |steps| + 1 && 0 <= l <= n <= |steps|
  {
    forall e :: ToClean(router, e) ==>
      FoundClaimed(steps, tr, l, n, r, e) || (FoundUnclaimed(steps, tr, l, n, r, e) && HasSwept(steps, tr, l, n, r, e))
  }

  lemma SweepOver(steps: seq<Step>, tr: seq<State>, n: int, r: Key) returns (l: int)
    requires Trace(steps, tr) && Init(tr[0]) && 0 <= n < |steps| && steps[n] == FinishSweep(r)
    ensures RouterPcOf(tr[n], r).RSweep? && 0 <= l < n && SameSweep(tr, r, l, n)
    ensures var snap := RouterPcOf(tr[n], r).snap;
      && TookFence(steps, tr, l, r, snap) && DealtWith(steps, tr, l, n, r, snap)
      && (RouterPcOf(tr[n], r).final <==> snap.deleting)
  {
    RouterPcAt(steps, tr, n, r);
    l := SweepingAt(steps, tr, n, r);
    var pc := RouterPcOf(tr[n], r);
    forall e | ToClean(pc.snap, e)
      ensures FoundClaimed(steps, tr, l, n, r, e) || (FoundUnclaimed(steps, tr, l, n, r, e) && HasSwept(steps, tr, l, n, r, e))
    {
      assert Accounted(steps, tr, l, n, r, pc, e);
    }
  }

  lemma DealtWithin(steps: seq<Step>, tr: seq<State>, l: int, n: int, j: int, r: Key, router: Router)
    requires |tr| == |steps| + 1 && 0 <= l <= n <= j <= |steps| && DealtWith(steps, tr, l, n, r, router)
    ensures DealtWith(steps, tr, l, j, r, router)
  {
    forall e | ToClean(router, e)
      ensures FoundClaimed(steps, tr, l, j, r, e) || (FoundUnclaimed(steps, tr, l, j, r, e) && HasSwept(steps, tr, l, j, r, e))
    {
      assert FoundClaimed(steps, tr, l, n, r, e) ==> FoundClaimed(steps, tr, l, j, r, e);
      assert FoundUnclaimed(steps, tr, l, n, r, e) ==> FoundUnclaimed(steps, tr, l, j, r, e);
    }
  }

  /** The pass that stores at `j` took the fence at `l`, read the router as it still is, and has dealt with its devices. */
  ghost predicate SweptPass(steps: seq<Step>, tr: seq<State>, l: int, j: int, r: Key)
    requires |tr| == |steps| + 1 && 0 <= l < j < |steps| && r in tr[j].routers
  {
    SameSweep(tr, r, l, j) && TookFence(steps, tr, l, r, tr[j].routers[r]) && DealtWith(steps, tr, l, j, r, tr[j].routers[r])
  }

  /** The store at `j` takes something away, so the pass has just finished a sweep. */
  lemma TakingPass(steps: seq<Step>, tr: seq<State>, j: int, r: Key) returns (l: int)
    requires Trace(steps, tr) && Init(tr[0]) && 0 <= j < |steps| && steps[j] == StoreRouterOk(r) && RouterPcOf(tr[j], r).RPut?
    requires var pc := RouterPcOf(tr[j], r);
      (pc.snap.finalizer && !pc.next.finalizer) || !(Keys(pc.snap.applied) <= Keys(pc.next.applied))
    ensures 0 <= l < j && r in tr[j].routers && SweptPass(steps, tr, l, j, r)
    ensures var pc := RouterPcOf(tr[j], r);
      pc.snap == tr[j].routers[r] &&
      pc.next == if pc.snap.deleting then pc.snap.(finalizer := false) else pc.snap.(applied := pc.snap.spec)
  {
    RouterStored(steps, tr, j, r);
    var n := RouterPreparedAt(steps, tr, j, r);
    IntoRPut(tr[n], steps[n]);
    if steps[n].DecideRouter? { DecisionKeeps(RouterPcOf(tr[n], r).snap, steps[n].owned); }
    l := SweepOver(steps, tr, n, r);
    DealtWithin(steps, tr, l, n, j, r, tr[j].routers[r]);
  }

  /**
    Over whole runs: a device leaves the history of a router that stays only when its worker stores the current
    configuration as the history of a live router.  The device is then no longer configured, and in the same pass it
    was swept, was found to be listed by another router that stays, or had no usable record.
   */
  lemma HistoryStory(steps: seq<Step>, tr: seq<State>, j: int, r: Key, e: Ep)
    requires Trace(steps, tr) && Init(tr[0]) && 0 <= j < |steps| && r in tr[j].routers && r in tr[j + 1].routers
    requires HasKey(tr[j].routers[r].applied, e) && !HasKey(tr[j + 1].routers[r].applied, e)
    ensures var router := tr[j].routers[r];
      && steps[j] == StoreRouterOk(r) && !router.deleting && !HasKey(router.spec, e)
      && tr[j + 1].routers[r] == router.(applied := router.spec, rv := tr[j].clock)
      && exists l :: 0 <= l < j && SweptPass(steps, tr, l, j, r) &&
           (|| !Usable(router.applied, e)
            || FoundClaimed(steps, tr, l, j, r, e)
            || (FoundUnclaimed(steps, tr, l, j, r, e) && HasSwept(steps, tr, l, j, r, e)))
  {
    RouterPcAt(steps, tr, j, r);
    if steps[j] != StoreRouterOk(r) { KeepsHistory(tr[j], steps[j], r); }
    RouterStored(steps, tr, j, r);
    var router := tr[j].routers[r];
    HasKeyMeans(router.applied, e);
    HasKeyMeans(tr[j + 1].routers[r].applied, e);
    var l := TakingPass(steps, tr, j, r);
    assert SweptPass(steps, tr, l, j, r);
    assert Usable(router.applied, e) ==> ToClean(router, e);
  }

  /**
    Over whole runs: a router with the finalizer loses it, and disappears, only when its deletion has been requested,
    at the end of a pass in which every usable device of its history was swept or was found to be listed elsewhere.
   */
  lemma RemovalStory(steps: seq<Step>, tr: seq<State>, j: int, r: Key)
    requires Trace(steps, tr) && Init(tr[0]) && 0 <= j < |steps|
    requires r in tr[j].routers && tr[j].routers[r].finalizer
    requires !(r in tr[j + 1].routers && tr[j + 1].routers[r].finalizer)
    ensures steps[j] == StoreRouterOk(r) && tr[j].routers[r].deleting && r !in tr[j + 1].routers
    ensures exists l :: 0 <= l < j && SweptPass(steps, tr, l, j, r)
  {
    RouterPcAt(steps, tr, j, r);
    if steps[j] != StoreRouterOk(r) { KeepsHistory(tr[j], steps[j], r); }
    RouterStored(steps, tr, j, r);
    var l := TakingPass(steps, tr, j, r);
    assert SweptPass(steps, tr, l, j, r);
  }
}
