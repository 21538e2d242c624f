/**
  What whole passes of a router's worker achieve, between the steps of all other workers: a live router with a
  complete configuration is enrolled (finalizer, history equal to the configuration) after three passes that end
  well, and from then on its passes change nothing.
 */
module RouterPasses {
  import opened Text
  import opened Targets
  import opened Cluster
  import opened ClusterSafety
  import opened ClusterRuns
  import opened ClusterTheorems
  import opened ClusterStories
  import opened ClusterSweeps
  import opened EndpointHistory

  /* ---- The recorded union of endpoints ---- */

  lemma {:induction false} RecordsAll(es: seq<Endpoint>, more: seq<Endpoint>)
    requires DistinctKeys(es + more)
    ensures UpsertAll(es, more) == es + more
    decreases |more|
  {
    if more != [] {
      var e, rest := more[0], more[1..];
      assert es + more == (es + [e]) + rest;
      forall i | 0 <= i < |es| ensures es[i].key != e.key { assert (es + more)[i] == es[i] && (es + more)[|es|] == e; }
      UpsertNew(es, e);
      RecordsAll(es + [e], rest);
    } else {
      assert es + more == es;
    }
  }

  lemma {:induction false} RecordsNothingNew(es: seq<Endpoint>, more: seq<Endpoint>)
    requires DistinctKeys(es) && forall x :: x in more ==> x in es
    ensures UpsertAll(es, more) == es
    decreases |more|
  {
    if more != [] {
      var e := more[0];
      assert e in es;
      var i :| 0 <= i < |es| && es[i] == e;
      UpsertAt(es, e, i);
      assert es[i := e] == es;
      RecordsNothingNew(es, more[1..]);
    }
  }

  /** Recording the current endpoints again changes nothing. */
  lemma UnionSettled(previous: seq<Endpoint>, current: seq<Endpoint>)
    requires DistinctKeys(current)
    ensures var u := EndpointUnion(previous, current); EndpointUnion(u, current) == u
  {
    var past := UpsertAll([], previous);
    var u := UpsertAll(past, current);
    NewestWins([], previous);
    NewestWins(past, current);
    assert [] + u == u;
    RecordsAll([], u);
    forall e | e in current ensures e in u {
      assert e.key in Keys(u);
      var x :| x in u && x.key == e.key;
      assert IsLast(current, x);
    }
    RecordsNothingNew(u, current);
  }

  lemma UnionOfSame(current: seq<Endpoint>)
    requires DistinctKeys(current)
    ensures EndpointUnion(current, current) == current
  {
    assert [] + current == current;
    RecordsAll([], current);
    RecordsNothingNew(current, current);
  }

  /* ---- One pass ---- */

  /** validateRouterEndpoints, as far as it is modelled: there are endpoints, each with an address and a Secret name. */
  predicate CompleteSpec(r: Router) {
    r.spec != [] && forall x :: x in r.spec ==> x.key != "" && TrimSpace(x.secret) != []
  }

  /** The pass runs without a failure to report, and every ownership check in it succeeds. */
  ghost predicate EndsWell(steps: seq<Step>, r: Key, g: int, j: int)
    requires 0 <= g <= j <= |steps|
  {
    forall k :: g < k < j ==>
      steps[k] != FailRouter(r, true) && steps[k] != DecideRouter(r, false) && steps[k] != LockRouter(r, false)
  }

  /** The stored router, with a new version. */
  function Bumped(r: Router, s: State): Router {
    r.(rv := s.clock)
  }

  /**
    What the pass that began with `read` leaves in place of `now`: a router to be deleted is gone after its sweep, an
    incomplete one is left as it is, and a complete one gets the finalizer, then the record of its endpoints, and
    then, after its sweep, the current endpoints as its history.
   */
  ghost predicate Progress(steps: seq<Step>, tr: seq<State>, j: int, r: Key, read: Router)
    requires |tr| == |steps| + 1 && 0 <= j < |steps| && r in tr[j].routers
  {
    var now := tr[j].routers[r];
    if now.deleting then r !in tr[j + 1].routers && exists l :: 0 <= l < j && SweptPass(steps, tr, l, j, r)
    else
      && r in tr[j + 1].routers
      && var next := tr[j + 1].routers[r];
         if !CompleteSpec(read) then now == read && next == Bumped(now, tr[j])
         else if !read.finalizer then now == read && next == Bumped(now.(finalizer := true), tr[j])
         else if EndpointUnion(read.applied, read.spec) != read.applied then
           now == read && next == Bumped(now.(applied := EndpointUnion(read.applied, read.spec)), tr[j])
         else
           next == Bumped(now.(applied := now.spec), tr[j]) && exists l :: 0 <= l < j && SweptPass(steps, tr, l, j, r)
  }

  /** What a pass means to do with the router it read: wait for the fence, or store something at once. */
  datatype Plan = Plan(read: Router, waits: bool, next: Router)

  /** How far the pass that read the router at `g` has come. */
  ghost predicate Reaching(steps: seq<Step>, tr: seq<State>, g: int, k: int, r: Key, plan: Plan)
    requires |tr| == |steps| + 1 && 0 <= g < k <= |steps|
  {
    var live := !plan.read.deleting && plan.waits;
    match RouterPcOf(tr[k], r)
    case RIdle => false
    case RRead(snap) => snap == plan.read
    case RWait(deletion) => if deletion then plan.read.deleting else live
    case RSweep(snap, _, _, _, _, _) => snap.deleting || live
    case RPut(snap, next, _, _, fenced) =>
      || (!fenced && snap == plan.read && !plan.read.deleting && !plan.waits && next == plan.next)
      || (fenced && (snap.deleting || live) && exists n :: g < n < k && Ends(steps, tr, n, r, snap, next))
  }

  ghost predicate Ends(steps: seq<Step>, tr: seq<State>, n: int, r: Key, snap: Router, next: Router)
    requires |tr| == |steps| + 1 && 0 <= n < |steps|
  {
    steps[n] == FinishSweep(r) && RouterPcOf(tr[n], r).RSweep? && RouterPcOf(tr[n], r).snap == snap &&
    Prepared(RouterPcOf(tr[n + 1], r), snap, next)
  }

  /** Whether a live router needs nothing more before the fence. */
  ghost predicate Waits(read: Router) {
    CompleteSpec(read) && read.finalizer && EndpointUnion(read.applied, read.spec) == read.applied
  }

  ghost function PlanFor(read: Router): Plan {
    var next :=
      if !CompleteSpec(read) then read
      else if !read.finalizer then read.(finalizer := true)
      else read.(applied := EndpointUnion(read.applied, read.spec));
    Plan(read, Waits(read), next)
  }

  lemma DecisionReaches(read: Router)
    ensures var plan, to := PlanFor(read), DecideRouterPc(read, true);
      || (to.RWait? && if to.deletion then read.deleting else !read.deleting && plan.waits)
      || (to.RPut? && !to.fenced && to.snap == read && !read.deleting && to.next == plan.next && !plan.waits)
  {
    assert CompleteSpec(read) <==> read.spec != [] && AllDialable(read.spec);
  }

  lemma LockReaches(now: Router, deletion: bool)
    ensures var to := LockRouterPc(now, deletion, true);
      to.RIdle? || (to.RSweep? && to.snap == now && (now.deleting || !deletion))
  {
  }

  lemma ReachingDecides(steps: seq<Step>, tr: seq<State>, g: int, k: int, r: Key, plan: Plan)
    requires Trace(steps, tr) && 0 <= g < k < |steps| && steps[k] == DecideRouter(r, true) && plan == PlanFor(plan.read)
    requires Reaching(steps, tr, g, k, r, plan)
    ensures Reaching(steps, tr, g, k + 1, r, plan)
  {
    RouterPcAt(steps, tr, k, r);
    DecisionReaches(plan.read);
  }

  lemma ReachingLocks(steps: seq<Step>, tr: seq<State>, g: int, k: int, r: Key, plan: Plan)
    requires Trace(steps, tr) && 0 <= g < k < |steps| && steps[k] == LockRouter(r, true)
    requires Reaching(steps, tr, g, k, r, plan) && !RouterPcOf(tr[k + 1], r).RIdle?
    ensures Reaching(steps, tr, g, k + 1, r, plan)
  {
    RouterPcAt(steps, tr, k, r);
    LockReaches(tr[k].routers[r], RouterPcOf(tr[k], r).deletion);
  }

  lemma ReachingEnds(steps: seq<Step>, tr: seq<State>, g: int, k: int, r: Key, plan: Plan)
    requires Trace(steps, tr) && 0 <= g < k < |steps| && steps[k] == FinishSweep(r)
    requires Reaching(steps, tr, g, k, r, plan)
    ensures Reaching(steps, tr, g, k + 1, r, plan)
  {
    RouterPcAt(steps, tr, k, r);
    var pc, to := RouterPcOf(tr[k], r), RouterPcOf(tr[k + 1], r);
    assert Ends(steps, tr, k, r, pc.snap, to.next);
  }

  lemma ReachingSweeps(steps: seq<Step>, tr: seq<State>, g: int, k: int, r: Key, plan: Plan)
    requires Trace(steps, tr) && 0 <= g < k < |steps| && (steps[k].Classify? || steps[k].SweepAt?) && steps[k].r == r
    requires Reaching(steps, tr, g, k, r, plan)
    ensures Reaching(steps, tr, g, k + 1, r, plan)
  {
    RouterPcAt(steps, tr, k, r);
  }

  lemma ReachingStays(steps: seq<Step>, tr: seq<State>, g: int, k: int, r: Key, plan: Plan)
    requires |tr| == |steps| + 1 && 0 <= g < k < |steps| && RouterPcOf(tr[k + 1], r) == RouterPcOf(tr[k], r)
    requires Reaching(steps, tr, g, k, r, plan)
    ensures Reaching(steps, tr, g, k + 1, r, plan)
  {
    var pc := RouterPcOf(tr[k], r);
    if pc.RPut? && pc.fenced {
      var n :| g < n < k && Ends(steps, tr, n, r, pc.snap, pc.next);
      assert g < n < k + 1 && Ends(steps, tr, n, r, pc.snap, pc.next);
    }
  }

  lemma ReachingStep(steps: seq<Step>, tr: seq<State>, g: int, k: int, r: Key, plan: Plan)
    requires Trace(steps, tr) && 0 <= g < k < |steps| && Reaching(steps, tr, g, k, r, plan)
    requires EndsWell(steps, r, g, k + 1) && !RouterPcOf(tr[k + 1], r).RIdle? && plan == PlanFor(plan.read)
    ensures Reaching(steps, tr, g, k + 1, r, plan)
  {
    RouterPcAt(steps, tr, k, r);
    if !IsOfRouter(steps[k], r) {
      ReachingStays(steps, tr, g, k, r, plan);
    } else {
      match steps[k] {
        case DecideRouter(_, _) => ReachingDecides(steps, tr, g, k, r, plan);
        case LockRouter(_, _) => ReachingLocks(steps, tr, g, k, r, plan);
        case Classify(_, _) => ReachingSweeps(steps, tr, g, k, r, plan);
        case SweepAt(_, _) => ReachingSweeps(steps, tr, g, k, r, plan);
        case FinishSweep(_) => ReachingEnds(steps, tr, g, k, r, plan);
        case _ =>
      }
    }
  }

  lemma ReachingStarts(steps: seq<Step>, tr: seq<State>, g: int, r: Key, plan: Plan)
    requires Trace(steps, tr) && 0 <= g < |steps| && steps[g] == GetRouter(r) && r in tr[g].routers
    requires plan.read == tr[g].routers[r]
    ensures Reaching(steps, tr, g, g + 1, r, plan)
  {
    RouterPcAt(steps, tr, g, r);
  }

  lemma {:induction false} ReachingAt(steps: seq<Step>, tr: seq<State>, g: int, j: int, r: Key, plan: Plan)
    requires Trace(steps, tr) && 0 <= g < j <= |steps| && steps[g] == GetRouter(r) && r in tr[g].routers
    requires SameSweep(tr, r, g, j) && EndsWell(steps, r, g, j)
    requires plan.read == tr[g].routers[r] && plan == PlanFor(plan.read)
    ensures Reaching(steps, tr, g, j, r, plan)
    decreases j
  {
    if j == g + 1 {
      ReachingStarts(steps, tr, g, r, plan);
    } else {
      ReachingAt(steps, tr, g, j - 1, r, plan);
      ReachingStep(steps, tr, g, j - 1, r, plan);
    }
  }

  /** Over whole runs: what a pass that ends well has stored. */
  lemma PassStory(steps: seq<Step>, tr: seq<State>, g: int, j: int, r: Key)
    requires Trace(steps, tr) && Init(tr[0]) && 0 <= g < j < |steps| && steps[g] == GetRouter(r) && steps[j] == StoreRouterOk(r)
    requires SameSweep(tr, r, g, j) && EndsWell(steps, r, g, j)
    ensures r in tr[g].routers && r in tr[j].routers && Progress(steps, tr, j, r, tr[g].routers[r])
  {
    RouterPcAt(steps, tr, g, r);
    var plan := PlanFor(tr[g].routers[r]);
    ReachingAt(steps, tr, g, j, r, plan);
    RouterStored(steps, tr, j, r);
    var pc := RouterPcOf(tr[j], r);
    if pc.fenced {
      var n :| g < n < j && Ends(steps, tr, n, r, pc.snap, pc.next);
      SweptBy(steps, tr, n, j, r);
    }
  }

  lemma SweptBy(steps: seq<Step>, tr: seq<State>, n: int, j: int, r: Key)
    requires Trace(steps, tr) && Init(tr[0]) && 0 <= n < j < |steps| && steps[n] == FinishSweep(r)
    requires SameSweep(tr, r, n, j) && r in tr[j].routers
    requires RouterPcOf(tr[n], r).RSweep? && tr[j].routers[r] == RouterPcOf(tr[n], r).snap
    ensures exists l :: 0 <= l < j && SweptPass(steps, tr, l, j, r)
    ensures var snap := RouterPcOf(tr[n], r).snap;
      RouterPcOf(tr[n + 1], r).RPut? &&
      RouterPcOf(tr[n + 1], r).next == if snap.deleting then snap.(finalizer := false) else snap.(applied := snap.spec)
  {
    RouterPcAt(steps, tr, n, r);
    var l := SweepOver(steps, tr, n, r);
    DealtWithin(steps, tr, l, n, j, r, tr[j].routers[r]);
    assert SweptPass(steps, tr, l, j, r);
  }

  /* ---- Three passes ---- */

  /** How far the worker still is from having enrolled a router with this configuration. */
  ghost function Rank(finalizer: bool, applied: seq<Endpoint>, spec: seq<Endpoint>): nat {
    if !finalizer then 3
    else if EndpointUnion(applied, spec) != applied then 2
    else if applied != spec then 1
    else 0
  }

  ghost predicate GoodSpec(spec: seq<Endpoint>) {
    spec != [] && DistinctKeys(spec) && forall x :: x in spec ==> x.key != "" && TrimSpace(x.secret) != []
  }

  lemma SweepRank(finalizer: bool, spec: seq<Endpoint>)
    requires GoodSpec(spec)
    ensures Rank(finalizer, spec, spec) == if finalizer then 0 else 3
  {
    UnionOfSame(spec);
  }

  lemma UnionRank(applied: seq<Endpoint>, spec: seq<Endpoint>)
    requires GoodSpec(spec)
    ensures Rank(true, EndpointUnion(applied, spec), spec) <= 1
  {
    UnionSettled(applied, spec);
  }

  lemma RankBounds(finalizer: bool, applied: seq<Endpoint>, spec: seq<Endpoint>)
    ensures !finalizer ==> Rank(finalizer, applied, spec) == 3
    ensures finalizer ==> Rank(finalizer, applied, spec) <= 2
    ensures finalizer && EndpointUnion(applied, spec) != applied ==> Rank(finalizer, applied, spec) == 2
  {
  }

  lemma DecisionStores(read: Router, owned: bool)
    requires DecideRouterPc(read, owned).RPut?
    ensures var next := DecideRouterPc(read, owned).next;
      || next == read
      || (!read.finalizer && next == read.(finalizer := true))
      || (read.finalizer && EndpointUnion(read.applied, read.spec) != read.applied &&
          next == read.(applied := EndpointUnion(read.applied, read.spec)))
  {
  }

  lemma DecisionRank(read: Router, owned: bool)
    requires GoodSpec(read.spec) && DecideRouterPc(read, owned).RPut?
    ensures var next := DecideRouterPc(read, owned).next;
      next.spec == read.spec && Rank(next.finalizer, next.applied, read.spec) <= Rank(read.finalizer, read.applied, read.spec)
  {
    DecisionStores(read, owned);
    UnionRank(read.applied, read.spec);
    RankBounds(read.finalizer, read.applied, read.spec);
    RankBounds(true, read.applied, read.spec);
  }

  /** What a good pass does to the stored router brings it further. */
  lemma PlanRank(read: Router)
    requires GoodSpec(read.spec) && !PlanFor(read).waits
    ensures var next := PlanFor(read).next;
      Rank(next.finalizer, next.applied, read.spec) < Rank(read.finalizer, read.applied, read.spec)
  {
    UnionRank(read.applied, read.spec);
    RankBounds(read.finalizer, read.applied, read.spec);
    RankBounds(true, read.applied, read.spec);
  }

  /** Users leave the router alone: it exists with this configuration and is not being deleted. */
  ghost predicate LeftAlone(tr: seq<State>, r: Key, spec: seq<Endpoint>, i: int, j: int)
    requires 0 <= i <= j < |tr|
  {
    forall k :: i <= k <= j ==> Alone(tr[k], r, spec)
  }

  ghost predicate Alone(s: State, r: Key, spec: seq<Endpoint>) {
    r in s.routers && !s.routers[r].deleting && s.routers[r].spec == spec
  }

  ghost function RankAt(s: State, r: Key, spec: seq<Endpoint>): nat
    requires Alone(s, r, spec)
  {
    Rank(s.routers[r].finalizer, s.routers[r].applied, spec)
  }

  /** What the step that prepared a store meant to keep. */
  lemma PreparedRank(s: State, step: Step, spec: seq<Endpoint>)
    requires ByRouter(step) && RouterEnabled(s, step) && GoodSpec(spec) && !step.FinishSweep?
    requires RouterMove(s, step).RPut? && !RouterPcOf(s, step.r).RPut? && RouterMove(s, step).snap.spec == spec
    ensures var to := RouterMove(s, step);
      Rank(to.next.finalizer, to.next.applied, spec) <= Rank(to.snap.finalizer, to.snap.applied, spec)
  {
    IntoRPut(s, step);
    if step.DecideRouter? { DecisionRank(RouterPcOf(s, step.r).snap, step.owned); }
  }

  /** The store of a worker sets nothing back. */
  lemma StoreRank(steps: seq<Step>, tr: seq<State>, k: int, r: Key, spec: seq<Endpoint>)
    requires Trace(steps, tr) && Init(tr[0]) && 0 <= k < |steps| && GoodSpec(spec) && steps[k] == StoreRouterOk(r)
    requires Alone(tr[k], r, spec) && Alone(tr[k + 1], r, spec)
    ensures RankAt(tr[k + 1], r, spec) <= RankAt(tr[k], r, spec)
  {
    RouterStored(steps, tr, k, r);
    var n := RouterPreparedAt(steps, tr, k, r);
    if steps[n].FinishSweep? {
      SweptRank(steps, tr, n, k, r, spec);
    } else {
      PreparedRank(tr[n], steps[n], spec);
    }
  }

  lemma SweptRank(steps: seq<Step>, tr: seq<State>, n: int, k: int, r: Key, spec: seq<Endpoint>)
    requires Trace(steps, tr) && Init(tr[0]) && 0 <= n < k < |steps| && steps[n] == FinishSweep(r) && SameSweep(tr, r, n, k)
    requires GoodSpec(spec) && Alone(tr[k], r, spec) && RouterPcOf(tr[k], r).RPut? && RouterEnabled(tr[n], steps[n])
    requires var pc := RouterPcOf(tr[k], r); pc.snap == tr[k].routers[r] && Prepared(RouterMove(tr[n], steps[n]), pc.snap, pc.next)
    ensures var pc := RouterPcOf(tr[k], r);
      Rank(pc.next.finalizer, pc.next.applied, spec) <= Rank(pc.snap.finalizer, pc.snap.applied, spec)
  {
    RouterPcAt(steps, tr, n, r);
    SweptBy(steps, tr, n, k, r);
    SweepRank(tr[k].routers[r].finalizer, spec);
  }

  /** No step ever sets the worker back while users leave the router alone. */
  lemma RankStays(steps: seq<Step>, tr: seq<State>, k: int, r: Key, spec: seq<Endpoint>)
    requires Trace(steps, tr) && Init(tr[0]) && 0 <= k < |steps| && GoodSpec(spec)
    requires Alone(tr[k], r, spec) && Alone(tr[k + 1], r, spec)
    ensures RankAt(tr[k + 1], r, spec) <= RankAt(tr[k], r, spec)
  {
    RouterPcAt(steps, tr, k, r);
    if steps[k] == StoreRouterOk(r) {
      StoreRank(steps, tr, k, r, spec);
    } else {
      KeepsHistory(tr[k], steps[k], r);
    }
  }

  /** Within a pass nothing is stored for the router before the end. */
  lemma {:induction false} Unstored(steps: seq<Step>, tr: seq<State>, g: int, j: int, r: Key, spec: seq<Endpoint>)
    requires Trace(steps, tr) && 0 <= g < j <= |steps| && SameSweep(tr, r, g, j) && steps[g] == GetRouter(r)
    requires LeftAlone(tr, r, spec, g, j)
    ensures tr[j].routers[r].finalizer == tr[g].routers[r].finalizer && tr[j].routers[r].applied == tr[g].routers[r].applied
    decreases j
  {
    if g < j - 1 { Unstored(steps, tr, g, j - 1, r, spec); }
    RouterPcAt(steps, tr, j - 1, r);
    KeepsHistory(tr[j - 1], steps[j - 1], r);
  }

  /** A pass from its first read at `g` to its store at `j` that ends well. */
  ghost predicate GoodPass(steps: seq<Step>, tr: seq<State>, r: Key, g: int, j: int)
    requires |tr| == |steps| + 1
  {
    && 0 <= g < j < |steps| && steps[g] == GetRouter(r) && steps[j] == StoreRouterOk(r)
    && SameSweep(tr, r, g, j) && EndsWell(steps, r, g, j)
  }

  /** Each such pass takes the router one stage further. */
  lemma RankDrops(steps: seq<Step>, tr: seq<State>, g: int, j: int, r: Key, spec: seq<Endpoint>)
    requires Trace(steps, tr) && Init(tr[0]) && GoodPass(steps, tr, r, g, j)
    requires GoodSpec(spec) && LeftAlone(tr, r, spec, g, j + 1)
    ensures RankAt(tr[j + 1], r, spec) < RankAt(tr[g], r, spec) || RankAt(tr[j + 1], r, spec) == 0
  {
    PassStory(steps, tr, g, j, r);
    Unstored(steps, tr, g, j, r, spec);
    var read := tr[g].routers[r];
    SweepRank(read.finalizer, spec);
    if !PlanFor(read).waits { PlanRank(read); }
  }

  /** The stages that a router passes through, step by step. */
  ghost predicate Stages(steps: seq<Step>, tr: seq<State>, r: Key, spec: seq<Endpoint>, i: int, j: int, ranks: seq<nat>)
    requires |tr| == |steps| + 1 && 0 <= i <= j < |tr|
  {
    && |ranks| == |tr|
    && (forall k :: i <= k < j ==> ranks[k + 1] <= ranks[k])
    && (forall a, b :: i <= a && b < j && GoodPass(steps, tr, r, a, b) ==> ranks[b + 1] < ranks[a] || ranks[b + 1] == 0)
    && (forall k :: i <= k <= j ==> ranks[k] <= 3 && (ranks[k] == 0 ==> Enrolled(tr[k], r, spec)))
  }

  /** Other workers may apply configuration through the router, and its history is its configuration. */
  ghost predicate Enrolled(s: State, r: Key, spec: seq<Endpoint>) {
    r in s.routers && s.routers[r].applied == spec && TakesConfiguration(s.routers[r])
  }

  lemma RankZero(s: State, r: Key, spec: seq<Endpoint>)
    requires Alone(s, r, spec) && GoodSpec(spec) && RankAt(s, r, spec) == 0
    ensures Enrolled(s, r, spec)
  {
    assert EachIn(spec, spec);
  }

  ghost predicate RanksOf(tr: seq<State>, r: Key, spec: seq<Endpoint>, i: int, j: int, ranks: seq<nat>)
    requires 0 <= i <= j < |tr|
  {
    |ranks| == |tr| && forall k :: i <= k <= j ==> Alone(tr[k], r, spec) && ranks[k] == RankAt(tr[k], r, spec)
  }

  lemma StageStays(steps: seq<Step>, tr: seq<State>, r: Key, spec: seq<Endpoint>, i: int, j: int, ranks: seq<nat>, k: int)
    requires Trace(steps, tr) && Init(tr[0]) && GoodSpec(spec) && 0 <= i <= k < j < |tr| && RanksOf(tr, r, spec, i, j, ranks)
    ensures ranks[k + 1] <= ranks[k]
  {
    RankStays(steps, tr, k, r, spec);
  }

  lemma StageDrops(steps: seq<Step>, tr: seq<State>, r: Key, spec: seq<Endpoint>, i: int, j: int, ranks: seq<nat>, a: int, b: int)
    requires Trace(steps, tr) && Init(tr[0]) && GoodSpec(spec) && 0 <= i <= j < |tr| && RanksOf(tr, r, spec, i, j, ranks)
    requires i <= a && b < j && GoodPass(steps, tr, r, a, b)
    ensures ranks[b + 1] < ranks[a] || ranks[b + 1] == 0
  {
    RankDrops(steps, tr, a, b, r, spec);
  }

  lemma StageEnds(tr: seq<State>, r: Key, spec: seq<Endpoint>, i: int, j: int, ranks: seq<nat>, k: int)
    requires GoodSpec(spec) && 0 <= i <= k <= j < |tr| && RanksOf(tr, r, spec, i, j, ranks)
    ensures ranks[k] <= 3 && (ranks[k] == 0 ==> Enrolled(tr[k], r, spec))
  {
    if ranks[k] == 0 { RankZero(tr[k], r, spec); }
  }

  lemma StagesOf(steps: seq<Step>, tr: seq<State>, r: Key, spec: seq<Endpoint>, i: int, j: int, ranks: seq<nat>)
    requires Trace(steps, tr) && Init(tr[0]) && GoodSpec(spec) && 0 <= i <= j < |tr| && RanksOf(tr, r, spec, i, j, ranks)
    ensures Stages(steps, tr, r, spec, i, j, ranks)
  {
    forall k | i <= k < j ensures ranks[k + 1] <= ranks[k] { StageStays(steps, tr, r, spec, i, j, ranks, k); }
    forall a, b | i <= a && b < j && GoodPass(steps, tr, r, a, b) ensures ranks[b + 1] < ranks[a] || ranks[b + 1] == 0 {
      StageDrops(steps, tr, r, spec, i, j, ranks, a, b);
    }
    forall k | i <= k <= j ensures ranks[k] <= 3 && (ranks[k] == 0 ==> Enrolled(tr[k], r, spec)) {
      StageEnds(tr, r, spec, i, j, ranks, k);
    }
  }

  lemma RanksExist(tr: seq<State>, r: Key, spec: seq<Endpoint>, i: int, j: int) returns (ranks: seq<nat>)
    requires 0 <= i <= j < |tr| && LeftAlone(tr, r, spec, i, j)
    ensures RanksOf(tr, r, spec, i, j, ranks)
  {
    ranks := seq(|tr|, k requires 0 <= k < |tr| => if Alone(tr[k], r, spec) then RankAt(tr[k], r, spec) else 0);
  }

  lemma StagesExist(steps: seq<Step>, tr: seq<State>, r: Key, spec: seq<Endpoint>, i: int, j: int) returns (ranks: seq<nat>)
    requires Trace(steps, tr) && Init(tr[0]) && GoodSpec(spec) && 0 <= i <= j < |tr| && LeftAlone(tr, r, spec, i, j)
    ensures Stages(steps, tr, r, spec, i, j, ranks)
  {
    ranks := RanksExist(tr, r, spec, i, j);
    StagesOf(steps, tr, r, spec, i, j, ranks);
  }

  lemma {:induction false} NoSetback(ranks: seq<nat>, i: int, j: int)
    requires 0 <= i <= j < |ranks| && forall k :: i <= k < j ==> ranks[k + 1] <= ranks[k]
    ensures ranks[j] <= ranks[i]
    decreases j
  {
    if i < j { NoSetback(ranks, i, j - 1); }
  }

  /**
    A live router whose configuration is complete, without duplicates, and left alone is enrolled after three passes
    that end well, and stays so, whatever all other workers do and however many of its own passes fail in between.
   */
  lemma EnrolledWithinThreePasses(
    steps: seq<Step>, tr: seq<State>, r: Key, spec: seq<Endpoint>, g1: int, j1: int, g2: int, j2: int, g3: int, j3: int, n: int)
    requires Trace(steps, tr) && Init(tr[0]) && GoodSpec(spec)
    requires GoodPass(steps, tr, r, g1, j1) && GoodPass(steps, tr, r, g2, j2) && GoodPass(steps, tr, r, g3, j3)
    requires j1 < g2 && j2 < g3 && j3 < n <= |steps| && LeftAlone(tr, r, spec, g1, n)
    ensures Enrolled(tr[n], r, spec)
  {
    var ranks := StagesExist(steps, tr, r, spec, g1, n);
    NoSetback(ranks, j1 + 1, g2);
    NoSetback(ranks, j2 + 1, g3);
    NoSetback(ranks, j3 + 1, n);
  }
}
