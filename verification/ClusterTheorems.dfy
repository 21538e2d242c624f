/** What the cleanup protocol guarantees about whole runs, and exactly where it loses an entry. */
module ClusterTheorems {
  import opened Text
  import opened Targets
  import opened Cluster
  import opened ClusterSafety
  import opened ClusterRuns

  lemma InitInv(s: State)
    requires Init(s)
    ensures Inv(s)
  {
    assert forall o :: ObjPcOf(s, o) == Idle;
    assert forall r :: RouterPcOf(s, r) == RIdle;
  }

  /* ---- The states of a run ---- */

  /** Step `i` leads from state `i` to state `i + 1`. */
  ghost predicate StepAt(steps: seq<Step>, tr: seq<State>, i: nat)
    requires |tr| == |steps| + 1 && i < |steps|
  {
    Enabled(tr[i], steps[i]) && tr[i + 1] == Next(tr[i], steps[i])
  }

  /** `tr` are the states that the run `steps` passes through. */
  ghost predicate Trace(steps: seq<Step>, tr: seq<State>) {
    |tr| == |steps| + 1 && forall i :: 0 <= i < |steps| ==> StepAt(steps, tr, i)
  }

  /** Every run has its states. */
  lemma {:induction false} RunTrace(s: State, steps: seq<Step>) returns (tr: seq<State>)
    requires IsRun(s, steps)
    ensures Trace(steps, tr) && tr[0] == s && tr[|steps|] == After(s, steps)
    decreases |steps|
  {
    if steps == [] {
      tr := [s];
    } else {
      var n, rest := RunSplit(s, steps);
      var more := RunTrace(n, rest);
      tr := [s] + more;
      forall i | 0 <= i < |steps| ensures StepAt(steps, tr, i) { TraceCons(steps, tr, rest, more, i); }
    }
  }

  lemma TraceCons(steps: seq<Step>, tr: seq<State>, rest: seq<Step>, more: seq<State>, i: nat)
    requires steps != [] && rest == steps[1..] && Trace(rest, more) && |tr| == |steps| + 1 && i < |steps|
    requires tr[1..] == more && Enabled(tr[0], steps[0]) && more[0] == Next(tr[0], steps[0])
    ensures StepAt(steps, tr, i)
  {
    assert tr[i + 1] == more[i];
    if i > 0 {
      assert tr[i] == more[i - 1] && steps[i] == rest[i - 1];
      assert StepAt(rest, more, i - 1);
    }
  }

  lemma StepInv(steps: seq<Step>, tr: seq<State>, i: nat)
    requires Trace(steps, tr) && i < |steps| && Inv(tr[i])
    ensures Inv(tr[i + 1])
  {
    assert StepAt(steps, tr, i);
    StepKeepsInv(tr[i], steps[i]);
  }

  lemma {:induction false} InvAt(steps: seq<Step>, tr: seq<State>, i: nat)
    requires Trace(steps, tr) && Init(tr[0]) && i <= |steps|
    ensures Inv(tr[i])
  {
    if i == 0 {
      InitInv(tr[0]);
    } else {
      InvAt(steps, tr, i - 1);
      StepInv(steps, tr, i - 1);
    }
  }

  /* ---- What is recorded ---- */

  /**
    In every run, an entry on a device is either an orphan (see HistoryLoss) or its object has the
    finalizer and records the router, and that router exists and lists the device with an endpoint that
    a cleanup connects to.
   */
  lemma EntriesAreTracked(s: State, steps: seq<Step>)
    requires Init(s) && IsRun(s, steps)
    ensures var t := After(s, steps);
      forall sp :: sp in t.dev && sp !in t.orphans ==>
        var r := t.dev[sp];
        && sp.obj in t.objs && t.objs[sp.obj].finalizer
        && RefStorage(sp.obj.ns, r) in Decode(t.objs[sp.obj].annotation)
        && r in t.routers && t.routers[r].finalizer && sp.ep in Keys(CleanupEndpoints(t.routers[r]))
  {
    var tr := RunTrace(s, steps);
    InvAt(steps, tr, |steps|);
    var t := After(s, steps);
    forall sp | sp in t.dev && sp !in t.orphans
      ensures Tracked(t, sp) && sp.ep in Keys(CleanupEndpoints(t.routers[t.dev[sp]]))
    {
      assert Live(t, sp);
      CleanupCovers(t.routers[t.dev[sp]], sp.ep);
    }
  }

  /** An object that is gone, or has no finalizer, leaves at most orphans behind. */
  lemma RemovedObjectLeavesOnlyOrphans(s: State, steps: seq<Step>, sp: Spot)
    requires Init(s) && IsRun(s, steps)
    requires var t := After(s, steps); sp in t.dev && (sp.obj !in t.objs || !t.objs[sp.obj].finalizer)
    ensures sp in After(s, steps).orphans
  {
    EntriesAreTracked(s, steps);
  }

  /** Nothing a router's pass records for the first time has been contacted by that pass. */
  lemma RecordedBeforeContact(s: State, r: Key)
    requires Inv(s) && Enabled(s, StoreRouterOk(r))
    ensures var pc := RouterPcOf(s, r);
      pc.touched * (Keys(pc.next.applied) - Keys(s.routers[r].applied)) == {}
    ensures RouterPcOf(Next(s, StoreRouterOk(r)), r) == RIdle
  {
    assert RouterOk(s, r);
  }

  /** A child only ever writes to an endpoint that is already in the history of the router it locked. */
  lemma ChildWritesAreListed(s: State, o: Key, present: bool)
    requires Inv(s) && Enabled(s, ApplyAt(o, present))
    ensures var pc := ObjPcOf(s, o);
      pc.key in s.routers && pc.queue[0].key in Keys(s.routers[pc.key].applied)
  {
    assert ObjOk(s, o) && ObjPcOf(s, o).queue[0] in ObjPcOf(s, o).queue;
  }

  /* ---- Where an entry is lost ---- */

  /**
    The step takes an entry out of reach of every later cleanup: a router's write no longer lists the device,
    an object's write no longer records the router, or a child writes where the history has only a blank record.
   */
  ghost predicate Loses(s: State, step: Step, sp: Spot) {
    match step
    case StoreRouterOk(r) =>
      var pc := RouterPcOf(s, r);
      pc.RPut? && Live(s, sp) && s.dev[sp] == r && !Lists(pc.next, sp.ep)
    case StoreObjOk(o) =>
      var pc := ObjPcOf(s, o);
      pc.Put? && Live(s, sp) && sp.obj == o && !Records(o, pc.next, s.dev[sp])
    case ApplyAt(o, present) =>
      var pc := ObjPcOf(s, o);
      pc.ApplyingAt? && pc.queue != [] && present && sp == Spot(o, pc.queue[0].key) && !ListedAt(s, pc.key, sp.ep)
    case _ => false
  }

  /** What made it happen: a claim by another router, a Secret that was not found, or a blank record. */
  ghost predicate Cause(s: State, step: Step, sp: Spot)
    requires Loses(s, step, sp)
  {
    match step
    case StoreRouterOk(r) =>
      var pc := RouterPcOf(s, r);
      sp.ep in pc.claimed || Blank(pc.next.applied, sp.ep)
    case StoreObjOk(o) => RefStorage(o.ns, s.dev[sp]) in ObjPcOf(s, o).missed
    case ApplyAt(o, _) =>
      var pc := ObjPcOf(s, o);
      pc.key in s.routers && Blank(s.routers[pc.key].applied, sp.ep)
  }

  lemma UserObjLosesNothing(s: State, step: Step, sp: Spot)
    requires Inv(s) && (step.CreateObj? || step.EditObj? || step.DeleteObj?) && UserEnabled(s, step)
    ensures sp in UserNext(s, step).orphans ==> sp in s.orphans
  {
    if Live(s, sp) { assert Tracked(s, sp); }
  }

  lemma UserRouterLosesNothing(s: State, step: Step, sp: Spot)
    requires Inv(s) && (step.CreateRouter? || step.EditRouter? || step.DeleteRouter?) && UserEnabled(s, step)
    ensures sp in UserNext(s, step).orphans ==> sp in s.orphans
  {
    if Live(s, sp) { assert Tracked(s, sp); }
  }

  lemma UserLosesNothing(s: State, step: Step, sp: Spot)
    requires Inv(s) && ByUser(step) && UserEnabled(s, step)
    ensures sp in UserNext(s, step).orphans ==> sp in s.orphans
  {
    if step.CreateObj? || step.EditObj? || step.DeleteObj? {
      UserObjLosesNothing(s, step, sp);
    } else if step.CreateRouter? || step.EditRouter? || step.DeleteRouter? {
      UserRouterLosesNothing(s, step, sp);
    }
  }

  lemma ObjectLoss(s: State, step: Step, sp: Spot)
    requires !ByUser(step) && !ByRouter(step) && ObjectEnabled(s, step) && sp !in s.orphans
    ensures sp in ObjectNext(s, step).orphans <==> Loses(s, step, sp)
  {
  }

  lemma RouterLoss(s: State, step: Step, sp: Spot)
    requires ByRouter(step) && RouterEnabled(s, step) && sp !in s.orphans
    ensures sp in RouterNext(s, step).orphans <==> Loses(s, step, sp)
  {
  }

  lemma WriteIsBlank(s: State, o: Key, sp: Spot)
    requires Inv(s) && ObjectEnabled(s, ApplyAt(o, true)) && Loses(s, ApplyAt(o, true), sp)
    ensures Cause(s, ApplyAt(o, true), sp)
  {
    var pc := ObjPcOf(s, o);
    assert ObjOk(s, o) && pc.queue[0] in pc.queue;
    ListedOrBlank(s.routers[pc.key], sp.ep);
  }

  lemma LossHasCause(s: State, step: Step, sp: Spot)
    requires Inv(s) && Enabled(s, step) && Loses(s, step, sp)
    ensures Cause(s, step, sp)
  {
    if step.StoreRouterOk? {
      assert RouterOk(s, step.r);
    } else if step.StoreObjOk? {
      assert ObjOk(s, step.o);
    } else {
      WriteIsBlank(s, step.o, sp);
    }
  }

  /** An entry gets out of reach at exactly these steps, and each of them has one of these causes. */
  lemma HistoryLoss(s: State, step: Step, sp: Spot)
    requires Inv(s) && Enabled(s, step) && sp !in s.orphans
    ensures sp in Next(s, step).orphans <==> Loses(s, step, sp)
    ensures Loses(s, step, sp) ==> Cause(s, step, sp)
  {
    if ByUser(step) {
      UserLosesNothing(s, step, sp);
    } else if ByRouter(step) {
      RouterLoss(s, step, sp);
    } else {
      ObjectLoss(s, step, sp);
    }
    if Loses(s, step, sp) { LossHasCause(s, step, sp); }
  }

  /** One step of a run, seen by `sp`. */
  lemma LossAt(steps: seq<Step>, tr: seq<State>, i: nat, sp: Spot)
    requires Trace(steps, tr) && Init(tr[0]) && i < |steps| && sp !in tr[i].orphans
    ensures sp in tr[i + 1].orphans <==> Loses(tr[i], steps[i], sp)
    ensures Loses(tr[i], steps[i], sp) ==> Cause(tr[i], steps[i], sp)
  {
    InvAt(steps, tr, i);
    assert StepAt(steps, tr, i);
    HistoryLoss(tr[i], steps[i], sp);
  }

  ghost predicate AllInReach(tr: seq<State>) {
    forall i :: 0 <= i < |tr| ==> tr[i].orphans == {}
  }

  ghost predicate NoneLost(steps: seq<Step>, tr: seq<State>)
    requires |tr| == |steps| + 1
  {
    forall i, sp :: 0 <= i < |steps| ==> !Loses(tr[i], steps[i], sp)
  }

  /** A run keeps every entry in reach if and only if none of its steps loses one. */
  lemma NothingIsLostExactly(steps: seq<Step>, tr: seq<State>)
    requires Trace(steps, tr) && Init(tr[0])
    ensures AllInReach(tr) <==> NoneLost(steps, tr)
  {
    if AllInReach(tr) {
      forall i, sp | 0 <= i < |steps| ensures !Loses(tr[i], steps[i], sp) {
        assert tr[i].orphans == {} && tr[i + 1].orphans == {};
        LossAt(steps, tr, i, sp);
      }
    }
    if NoneLost(steps, tr) {
      forall i | 0 <= i < |tr| ensures tr[i].orphans == {} { LosesNone(steps, tr, i); }
    }
  }

  lemma {:induction false} LosesNone(steps: seq<Step>, tr: seq<State>, n: nat)
    requires Trace(steps, tr) && Init(tr[0]) && n <= |steps| && NoneLost(steps, tr)
    ensures tr[n].orphans == {}
  {
    if n > 0 {
      LosesNone(steps, tr, n - 1);
      var t := tr[n];
      forall sp ensures sp !in t.orphans { LossAt(steps, tr, n - 1, sp); }
    }
  }

  /* ---- The step behind each cause ---- */

  /** The endpoints a router's pass has found claimed by another router. */
  function ClaimedOf(pc: RouterPc): set<Ep> {
    if pc.RSweep? || pc.RPut? then pc.claimed else {}
  }

  /** The targets an object's pass has given up because a Secret was not found. */
  function MissedOf(pc: ObjPc): set<string> {
    if pc.Cleaning? || pc.CleaningAt? || pc.Put? then pc.missed else {}
  }

  /** A step of a user or of an object's worker moves no router's worker, and the other way round. */
  lemma OtherStep(s: State, step: Step)
    requires Enabled(s, step)
    ensures !ByRouter(step) ==> Next(s, step).rpcs == s.rpcs
    ensures ByUser(step) || ByRouter(step) ==> Next(s, step).opcs == s.opcs
  {
    if ByUser(step) {
      UserMovesNoWorker(s, step);
    } else if ByRouter(step) {
      RouterMovesNoObj(s, step);
    } else {
      ObjectMovesNoRouter(s, step);
    }
  }

  lemma UserMovesNoWorker(s: State, step: Step)
    requires ByUser(step) && UserEnabled(s, step)
    ensures UserNext(s, step).rpcs == s.rpcs && UserNext(s, step).opcs == s.opcs
  {
    match step {
      case CreateObj(_, _, _) =>
      case EditObj(_, _, _) =>
      case DeleteObj(_) =>
      case CreateRouter(_, _) =>
      case EditRouter(_, _) =>
      case DeleteRouter(_) =>
      case CreateSecret(_) =>
      case DeleteSecret(_) =>
    }
  }

  lemma ObjectMovesNoRouter(s: State, step: Step)
    requires !ByUser(step) && !ByRouter(step) && ObjectEnabled(s, step)
    ensures ObjectNext(s, step).rpcs == s.rpcs
  {
  }

  lemma ObjectMovesOne(s: State, step: Step, p: Key)
    requires !ByUser(step) && !ByRouter(step) && ObjectEnabled(s, step) && p != step.o
    ensures ObjPcOf(ObjectNext(s, step), p) == ObjPcOf(s, p)
  {
  }

  lemma RouterMovesNoObj(s: State, step: Step)
    requires ByRouter(step) && RouterEnabled(s, step)
    ensures RouterNext(s, step).opcs == s.opcs
  {
  }

  lemma RouterMovesOne(s: State, step: Step, q: Key)
    requires ByRouter(step) && RouterEnabled(s, step) && q != step.r
    ensures RouterPcOf(RouterNext(s, step), q) == RouterPcOf(s, q)
  {
  }

  /** Some other router that is not being deleted has `e` in its configuration. */
  ghost predicate ElsewhereListed(s: State, r: Key, e: Ep) {
    exists q :: q in s.routers && q != r && !s.routers[q].deleting && HasKey(s.routers[q].spec, e)
  }

  ghost predicate HasKey(es: seq<Endpoint>, e: Ep) {
    exists x :: x in es && x.key == e
  }

  lemma ClaimedMeans(s: State, r: Key, e: Ep)
    ensures ClaimedByOther(s, r, e) <==> ElsewhereListed(s, r, e)
  {
    if ClaimedByOther(s, r, e) {
      var q :| q in s.routers && q != r && !s.routers[q].deleting && e in Keys(s.routers[q].spec);
      assert HasKey(s.routers[q].spec, e);
    }
    if ElsewhereListed(s, r, e) {
      var q :| q in s.routers && q != r && !s.routers[q].deleting && HasKey(s.routers[q].spec, e);
      assert e in Keys(s.routers[q].spec);
    }
  }

  /** A pass counts a device as claimed exactly from where it finds that another router that stays lists it. */
  lemma ClaimsAreReal(s: State, step: Step, r: Key, e: Ep)
    requires Enabled(s, step)
    ensures e in ClaimedOf(RouterPcOf(Next(s, step), r)) ==>
      e in ClaimedOf(RouterPcOf(s, r)) || FindsClaim(s, step, r, e)
    ensures FindsClaim(s, step, r, e) ==> e in ClaimedOf(RouterPcOf(Next(s, step), r))
  {
    ClaimedMeans(s, r, e);
    if ByRouter(step) { RouterClaims(s, step, r, e); } else { OtherStep(s, step); }
  }

  /** The pass of `r` finds another router that stays listing `e`. */
  ghost predicate FindsClaim(s: State, step: Step, r: Key, e: Ep) {
    step == Classify(r, e) && ElsewhereListed(s, r, e)
  }

  lemma RouterClaims(s: State, step: Step, r: Key, e: Ep)
    requires ByRouter(step) && RouterEnabled(s, step)
    ensures e in ClaimedOf(RouterPcOf(RouterNext(s, step), r)) ==>
      e in ClaimedOf(RouterPcOf(s, r)) || (step == Classify(r, e) && ClaimedByOther(s, r, e))
    ensures step == Classify(r, e) && ClaimedByOther(s, r, e) ==> e in ClaimedOf(RouterPcOf(RouterNext(s, step), r))
  {
  }

  /** At this step a target is given up although its router is there: a Secret of that router is missing. */
  ghost predicate GivesUp(s: State, step: Step, o: Key, t: string) {
    step == MissSecret(o) &&
    var pc := ObjPcOf(s, o);
    pc.CleaningAt? && pc.pending != [] && pc.target == t && pc.key == KeyFromRef(o.ns, t) &&
    !HasSecret(s, pc.key, pc.pending[0])
  }

  lemma MissesAreReal(s: State, step: Step, o: Key, t: string)
    requires Inv(s) && Enabled(s, step)
    ensures t in MissedOf(ObjPcOf(Next(s, step), o)) ==>
      t in MissedOf(ObjPcOf(s, o)) || GivesUp(s, step, o, t)
  {
    assert ObjOk(s, o);
    if ByUser(step) || ByRouter(step) { OtherStep(s, step); } else { ObjectMisses(s, step, o, t); }
  }

  lemma ObjectMisses(s: State, step: Step, o: Key, t: string)
    requires !ByUser(step) && !ByRouter(step) && ObjectEnabled(s, step)
    ensures t in MissedOf(ObjPcOf(ObjectNext(s, step), o)) ==>
      t in MissedOf(ObjPcOf(s, o)) || (step == MissSecret(o) && ObjPcOf(s, o).target == t)
  {
    if step.o != o { ObjectMovesOne(s, step, o); }
  }

  /** What holds at `j` and not at the start began at some step and has held since. */
  lemma {:induction false} Since(holds: seq<bool>, begins: seq<bool>, j: nat)
    requires |holds| == |begins| + 1 && j < |holds| && holds[j] && !holds[0]
    requires forall k :: 0 <= k < |begins| && holds[k + 1] ==> holds[k] || begins[k]
    ensures exists i :: 0 <= i < j && begins[i] && forall k :: i < k <= j ==> holds[k]
  {
    var i := j - 1;
    assert holds[i + 1];
    if holds[i] {
      Since(holds, begins, i);
      i :| 0 <= i < j - 1 && begins[i] && forall k :: i < k <= j - 1 ==> holds[k];
    }
    assert begins[i] && forall k :: i < k <= j ==> holds[k];
  }

  ghost predicate HasClaimed(s: State, r: Key, e: Ep) {
    e in ClaimedOf(RouterPcOf(s, r))
  }

  lemma ClaimBegins(steps: seq<Step>, tr: seq<State>, i: nat, r: Key, e: Ep)
    requires Trace(steps, tr) && i < |steps| && HasClaimed(tr[i + 1], r, e)
    ensures HasClaimed(tr[i], r, e) || FindsClaim(tr[i], steps[i], r, e)
  {
    assert StepAt(steps, tr, i);
    ClaimsAreReal(tr[i], steps[i], r, e);
  }

  /** At step `i`, in the pass that is still going on at `j`, another live router lists the device. */
  ghost predicate ClaimSeen(steps: seq<Step>, tr: seq<State>, i: nat, j: nat, r: Key, e: Ep)
    requires |tr| == |steps| + 1 && i < j <= |steps|
  {
    FindsClaim(tr[i], steps[i], r, e) && forall k :: i < k <= j ==> !RouterPcOf(tr[k], r).RIdle?
  }

  lemma ClaimedSince(steps: seq<Step>, tr: seq<State>, j: nat, r: Key, e: Ep)
    requires Trace(steps, tr) && Init(tr[0]) && j <= |steps| && HasClaimed(tr[j], r, e)
    ensures exists i :: 0 <= i < j && ClaimSeen(steps, tr, i, j, r, e)
  {
    var holds := seq(|tr|, k requires 0 <= k < |tr| => HasClaimed(tr[k], r, e));
    var begins := seq(|steps|, k requires 0 <= k < |steps| => FindsClaim(tr[k], steps[k], r, e));
    forall k | 0 <= k < |steps| && holds[k + 1] ensures holds[k] || begins[k] { ClaimBegins(steps, tr, k, r, e); }
    Since(holds, begins, j);
    var i :| 0 <= i < j && begins[i] && forall k :: i < k <= j ==> holds[k];
    forall k | i < k <= j ensures !RouterPcOf(tr[k], r).RIdle? { assert holds[k]; }
    assert ClaimSeen(steps, tr, i, j, r, e);
  }

  ghost predicate HasMissed(s: State, o: Key, t: string) {
    t in MissedOf(ObjPcOf(s, o))
  }

  lemma MissBegins(steps: seq<Step>, tr: seq<State>, i: nat, o: Key, t: string)
    requires Trace(steps, tr) && Init(tr[0]) && i < |steps| && HasMissed(tr[i + 1], o, t)
    ensures HasMissed(tr[i], o, t) || GivesUp(tr[i], steps[i], o, t)
  {
    InvAt(steps, tr, i);
    assert StepAt(steps, tr, i);
    MissesAreReal(tr[i], steps[i], o, t);
  }

  /** At step `i`, in the pass that is still going on at `j`, the target is given up. */
  ghost predicate MissSeen(steps: seq<Step>, tr: seq<State>, i: nat, j: nat, o: Key, t: string)
    requires |tr| == |steps| + 1 && i < j <= |steps|
  {
    GivesUp(tr[i], steps[i], o, t) && forall k :: i < k <= j ==> !ObjPcOf(tr[k], o).Idle?
  }

  lemma MissedSince(steps: seq<Step>, tr: seq<State>, j: nat, o: Key, t: string)
    requires Trace(steps, tr) && Init(tr[0]) && j <= |steps| && HasMissed(tr[j], o, t)
    ensures exists i :: 0 <= i < j && MissSeen(steps, tr, i, j, o, t)
  {
    var holds := seq(|tr|, k requires 0 <= k < |tr| => HasMissed(tr[k], o, t));
    var begins := seq(|steps|, k requires 0 <= k < |steps| => GivesUp(tr[k], steps[k], o, t));
    forall k | 0 <= k < |steps| && holds[k + 1] ensures holds[k] || begins[k] { MissBegins(steps, tr, k, o, t); }
    Since(holds, begins, j);
    var i :| 0 <= i < j && begins[i] && forall k :: i < k <= j ==> holds[k];
    forall k | i < k <= j ensures !ObjPcOf(tr[k], o).Idle? { assert holds[k]; }
    assert MissSeen(steps, tr, i, j, o, t);
  }

  /** The loss at step `j`, with the earlier step of the same pass that is to blame. */
  ghost predicate Story(steps: seq<Step>, tr: seq<State>, j: nat, sp: Spot)
    requires |tr| == |steps| + 1 && j < |steps|
  {
    var t := tr[j];
    && Loses(t, steps[j], sp)
    && match steps[j]
       case StoreRouterOk(r) =>
         || Blank(RouterPcOf(t, r).next.applied, sp.ep)
         || exists i :: 0 <= i < j && ClaimSeen(steps, tr, i, j, r, sp.ep)
       case StoreObjOk(o) => exists i :: 0 <= i < j && MissSeen(steps, tr, i, j, o, RefStorage(o.ns, t.dev[sp]))
       case ApplyAt(o, _) =>
         ObjPcOf(t, o).key in t.routers && Blank(t.routers[ObjPcOf(t, o).key].applied, sp.ep)
  }

  lemma LossStory(steps: seq<Step>, tr: seq<State>, j: nat, sp: Spot)
    requires Trace(steps, tr) && Init(tr[0]) && j < |steps|
    requires Loses(tr[j], steps[j], sp) && Cause(tr[j], steps[j], sp)
    ensures Story(steps, tr, j, sp)
  {
    var t := tr[j];
    match steps[j] {
      case StoreRouterOk(r) =>
        if sp.ep in RouterPcOf(t, r).claimed { ClaimedSince(steps, tr, j, r, sp.ep); }
      case StoreObjOk(o) => MissedSince(steps, tr, j, o, RefStorage(o.ns, t.dev[sp]));
      case ApplyAt(_, _) =>
    }
  }

  /**
    Over whole runs: every entry out of reach was lost at one step, and the run shows why.  A router's pass found
    another live router listing the device, an object's pass found a Secret of the router missing, or the history
    has a record of the device with a blank address or Secret name.
   */
  lemma {:induction false} OrphanStory(steps: seq<Step>, tr: seq<State>, n: nat, sp: Spot)
    requires Trace(steps, tr) && Init(tr[0]) && n <= |steps| && sp in tr[n].orphans
    ensures exists j :: 0 <= j < n && Story(steps, tr, j, sp)
  {
    var j := n - 1;
    if sp in tr[j].orphans {
      OrphanStory(steps, tr, j, sp);
      j :| 0 <= j < n - 1 && Story(steps, tr, j, sp);
    } else {
      LossAt(steps, tr, j, sp);
      LossStory(steps, tr, j, sp);
    }
    assert Story(steps, tr, j, sp);
  }
}
