/**
  The write-ahead cleanup protocol as a transition system.

  Managed objects (MikroTikRoute, MikroTikFirewallRule) and MikroTikRouters are reconciled by one
  worker each, step by step.  Stored objects carry a resource version: a write succeeds only if the
  object still has the version the worker read.  Any API or device call may fail, before or after
  taking effect.  Users create, edit and delete objects, routers and Secrets between any two steps.
 */
module Cluster {
  import opened Text
  import opened Targets

  /* ---- Stored state ---- */

  /** endpointKey: the identity of a physical RouterOS device; empty for an endpoint with a blank address. */
  type Ep = string

  /** A configured endpoint: its identity and its connection metadata. */
  datatype Endpoint = Endpoint(key: Ep, secret: string)

  /** The operator tries to connect only to endpoints with an address and a Secret name. */
  predicate Dialable(e: Endpoint) {
    e.key != "" && TrimSpace(e.secret) != []
  }

  predicate AllDialable(es: seq<Endpoint>) {
    forall e :: e in es ==> Dialable(e)
  }

  function Keys(es: seq<Endpoint>): set<Ep> {
    set e | e in es :: e.key
  }

  /** A MikroTikRouter: `spec` is routerEndpoints(router), `applied` is Status.AppliedEndpoints. */
  datatype Router = Router(rv: nat, finalizer: bool, deleting: bool, spec: seq<Endpoint>, applied: seq<Endpoint>)

  /** routerCleanupEndpoints. */
  function CleanupEndpoints(r: Router): seq<Endpoint> {
    var candidates := if r.applied == [] then r.spec else r.applied;
    Filter(candidates)
  }

  function Filter(es: seq<Endpoint>): (r: seq<Endpoint>)
    ensures forall e :: e in r <==> e in es && Dialable(e)
  {
    if es == [] then []
    else if Dialable(es[0]) then [es[0]] + Filter(es[1..])
    else Filter(es[1..])
  }

  /** `router` records `e` in its endpoint history, in a way that a cleanup can use. */
  predicate Lists(router: Router, e: Ep) {
    router.finalizer && e in Keys(Filter(router.applied))
  }

  /** ensureRouterActive, without the ownership check, which only ever refuses more. */
  predicate Active(r: Router) {
    !r.deleting && r.finalizer && Keys(r.applied) == Keys(r.spec) && Keys(r.spec) != {}
  }

  /** One step of durableRouterEndpointUnion: replace the endpoint with the same key, or append. */
  function Upsert(es: seq<Endpoint>, e: Endpoint): (r: seq<Endpoint>)
    ensures Keys(r) == Keys(es) + {e.key}
  {
    if es == [] then [e]
    else if es[0].key == e.key then
      assert es == [es[0]] + es[1..];
      [e] + es[1..]
    else
      assert es == [es[0]] + es[1..];
      var r := Upsert(es[1..], e);
      assert Keys([es[0]] + r) == {es[0].key} + Keys(r);
      [es[0]] + r
  }

  function UpsertAll(es: seq<Endpoint>, more: seq<Endpoint>): (r: seq<Endpoint>)
    ensures Keys(r) == Keys(es) + Keys(more)
    decreases |more|
  {
    if more == [] then es
    else
      assert more == [more[0]] + more[1..];
      UpsertAll(Upsert(es, more[0]), more[1..])
  }

  /** durableRouterEndpointUnion. */
  function EndpointUnion(previous: seq<Endpoint>, current: seq<Endpoint>): (r: seq<Endpoint>)
    ensures Keys(r) == Keys(previous) + Keys(current)
  {
    UpsertAll(UpsertAll([], previous), current)
  }

  /** A managed object; the empty annotation stands for an absent one. */
  datatype Obj = Obj(rv: nat, finalizer: bool, deleting: bool, ready: bool, specRef: string,
                     annotation: string, statusRef: string, applied: bool)

  /** `o` records `r` in its annotation. */
  predicate Records(o: Key, obj: Obj, r: Key) {
    obj.finalizer && RefStorage(o.ns, r) in Decode(obj.annotation)
  }

  /** The place of one object's entry: the object and the device. */
  datatype Spot = Spot(obj: Key, ep: Ep)

  /* ---- What one pass of an object's Reconcile decides after reading the object ---- */

  datatype Resolution = Resolved(key: Key) | Implicit | Unresolved

  datatype Goal = Finalize | CompactTo(ref: string)

  datatype Action =
    | Store(next: Obj)
    | CleanUp(todo: set<string>, exclude: string, goal: Goal)
    | Write(key: Key)

  /** RouteReconciler.Reconcile / FirewallRuleReconciler.Reconcile up to the first call that changes anything. */
  ghost function Decide(ns: string, o: Obj, res: Resolution): Action {
    if o.deleting then CleanUp(TargetSet(o.annotation, [o.statusRef, o.specRef]), "", Finalize)
    else if !o.ready then Store(o.(applied := false))
    else if !o.finalizer then Store(o.(finalizer := true))
    else match res
      case Unresolved => Store(o.(applied := false))
      case Implicit =>
        if o.annotation == "" && o.statusRef != "" then
          Store(o.(annotation := Encode(TargetSet(o.annotation, [o.statusRef]))))
        else if o.annotation != "" then CleanUp(TargetSet(o.annotation, [o.statusRef]), "", CompactTo(""))
        else if o.statusRef != "" then Store(o.(statusRef := "", applied := false))
        else Store(o.(applied := false))
      case Resolved(key) =>
        var ref := RefStorage(ns, key);
        var union := Encode(TargetSet(o.annotation, [o.statusRef, ref]));
        if o.annotation != ref && o.annotation != union then Store(o.(annotation := union))
        else if o.annotation != ref then CleanUp(TargetSet(o.annotation, [o.statusRef]), ref, CompactTo(ref))
        else if o.statusRef != "" && o.statusRef != ref then Store(o.(statusRef := "", applied := false))
        else Write(key)
  }

  /**
    Where a worker of an object stands between two atomic steps.  `pending` are the endpoints it has still to
    connect to, `missed` the targets this pass has given up because a Secret was not found.
   */
  datatype ObjPc =
    | Idle
    | Read(snap: Obj)
    | Put(snap: Obj, next: Obj, missed: set<string>)
    | Cleaning(snap: Obj, todo: set<string>, missed: set<string>, exclude: string, goal: Goal)
    | CleaningAt(snap: Obj, todo: set<string>, missed: set<string>, exclude: string, goal: Goal,
                 target: string, key: Key, pending: seq<Endpoint>, eps: set<Ep>)
    | Applying(snap: Obj, key: Key)
    | ApplyingAt(snap: Obj, key: Key, router: Router, pending: seq<Endpoint>, queue: seq<Endpoint>)

  /** Where the worker of a router stands between two atomic steps. */
  datatype RouterPc =
    | RIdle
    | RRead(snap: Router)
    | RWait(deletion: bool)
    | RSweep(snap: Router, todo: set<Ep>, claimed: set<Ep>, owned: set<Ep>, swept: set<Ep>, final: bool)
    | RPut(snap: Router, next: Router, claimed: set<Ep>, touched: set<Ep>, fenced: bool)

  /**
    The whole system.  `dev` maps every entry present on a device to the router it was last written
    through.  `orphans` are the entries that a cleanup would not find any more: the object does not record
    the router, or the router does not record the device in a way that it can be connected to.
   */
  datatype State = State(
    clock: nat,
    objs: map<Key, Obj>,
    routers: map<Key, Router>,
    secrets: set<Key>,
    dev: map<Spot, Key>,
    orphans: set<Spot>,
    opcs: map<Key, ObjPc>,
    rpcs: map<Key, RouterPc>)

  function ObjPcOf(s: State, o: Key): ObjPc {
    if o in s.opcs then s.opcs[o] else Idle
  }

  function RouterPcOf(s: State, r: Key): RouterPc {
    if r in s.rpcs then s.rpcs[r] else RIdle
  }

  ghost predicate Init(s: State) {
    s.clock == 0 && s.objs == map[] && s.routers == map[] && s.secrets == {} && s.dev == map[] && s.orphans == {} &&
    s.opcs == map[] && s.rpcs == map[]
  }

  /* ---- The per-router operation fence ---- */

  predicate ObjHolds(pc: ObjPc, r: Key) {
    (pc.CleaningAt? || pc.ApplyingAt?) && pc.key == r
  }

  predicate RouterHolds(pc: RouterPc) {
    pc.RSweep? || (pc.RPut? && pc.fenced)
  }

  ghost predicate FenceFree(s: State, r: Key) {
    !RouterHolds(RouterPcOf(s, r)) && forall o :: !ObjHolds(ObjPcOf(s, o), r)
  }

  /* ---- Effects ---- */

  /** The Secret an endpoint of router `r` names. */
  predicate HasSecret(s: State, r: Key, e: Endpoint) {
    Key(r.ns, e.secret) in s.secrets
  }

  /** Entries of `o` written through a router that `next` does not record. */
  ghost function Forgotten(s: State, o: Key, next: Obj): set<Spot> {
    set sp | sp in s.dev.Keys && sp.obj == o && !Records(o, next, s.dev[sp])
  }

  /** Entries written through `r` on endpoints that `next` does not list. */
  ghost function Abandoned(s: State, r: Key, next: Router): set<Spot> {
    set sp | sp in s.dev.Keys && s.dev[sp] == r && !Lists(next, sp.ep)
  }

  /** A stored object or router whose deletion is requested disappears with its finalizer. */
  ghost function StoreObj(s: State, o: Key, next: Obj): State {
    var t := s.(orphans := s.orphans + Forgotten(s, o, next));
    if next.deleting && !next.finalizer then t.(objs := s.objs - {o})
    else t.(clock := s.clock + 1, objs := s.objs[o := next.(rv := s.clock)])
  }

  ghost function StoreRouter(s: State, r: Key, next: Router): State {
    var t := s.(orphans := s.orphans + Abandoned(s, r, next));
    if next.deleting && !next.finalizer then t.(routers := s.routers - {r})
    else t.(clock := s.clock + 1, routers := s.routers[r := next.(rv := s.clock)])
  }

  function EraseEntry(s: State, sp: Spot): State {
    s.(dev := s.dev - {sp}, orphans := s.orphans - {sp})
  }

  /** DeleteManagedConfiguration on one device. */
  function SweepDevice(s: State, e: Ep): State {
    s.(dev := map sp | sp in s.dev && sp.ep != e :: s.dev[sp],
       orphans := set sp | sp in s.orphans && sp.ep != e)
  }

  predicate ListedAt(s: State, r: Key, e: Ep) {
    r in s.routers && Lists(s.routers[r], e)
  }

  function WriteEntry(s: State, sp: Spot, r: Key): State {
    s.(dev := s.dev[sp := r], orphans := if ListedAt(s, r, sp.ep) then s.orphans - {sp} else s.orphans + {sp})
  }

  function AtObj(s: State, o: Key, pc: ObjPc): State {
    s.(opcs := s.opcs[o := pc])
  }

  function AtRouter(s: State, r: Key, pc: RouterPc): State {
    s.(rpcs := s.rpcs[r := pc])
  }

  /** endpointClaimedByOtherRouter. */
  ghost predicate ClaimedByOther(s: State, r: Key, e: Ep) {
    exists q :: q in s.routers && q != r && !s.routers[q].deleting && e in Keys(s.routers[q].spec)
  }

  /* ---- Steps ---- */

  datatype Step =
    // users
    | CreateObj(o: Key, ready: bool, specRef: string)
    | EditObj(o: Key, ready: bool, specRef: string)
    | DeleteObj(o: Key)
    | CreateRouter(r: Key, spec: seq<Endpoint>)
    | EditRouter(r: Key, spec: seq<Endpoint>)
    | DeleteRouter(r: Key)
    | CreateSecret(k: Key)
    | DeleteSecret(k: Key)
    // the worker of an object
    | GetObj(o: Key)
    | DecideObj(o: Key, res: Resolution)
    | StoreObjOk(o: Key)
    | FailObj(o: Key, report: bool)
    | SkipTarget(o: Key, t: string)
    | LockTarget(o: Key, t: string)
    | Connect(o: Key)
    | MissSecret(o: Key)
    | EraseAt(o: Key, e: Ep)
    | UnlockTarget(o: Key)
    | ReachGoal(o: Key)
    | LockApply(o: Key)
    | ApplyAt(o: Key, present: bool)
    | Applied(o: Key)
    // the worker of a router
    | GetRouter(r: Key)
    | DecideRouter(r: Key, owned: bool)
    | LockRouter(r: Key, owned: bool)
    | Classify(r: Key, e: Ep)
    | SweepAt(r: Key, e: Ep)
    | FinishSweep(r: Key)
    | StoreRouterOk(r: Key)
    | FailRouter(r: Key, report: bool)

  predicate ByUser(step: Step) {
    step.CreateObj? || step.EditObj? || step.DeleteObj? || step.CreateRouter? ||
    step.EditRouter? || step.DeleteRouter? || step.CreateSecret? || step.DeleteSecret?
  }

  predicate ByRouter(step: Step) {
    step.GetRouter? || step.DecideRouter? || step.LockRouter? || step.Classify? ||
    step.SweepAt? || step.FinishSweep? || step.StoreRouterOk? || step.FailRouter?
  }

  ghost predicate UserEnabled(s: State, step: Step)
    requires ByUser(step)
  {
    match step
    case CreateObj(o, _, _) => o !in s.objs && ValidKey(o)
    case EditObj(o, _, _) => o in s.objs
    case DeleteObj(o) => o in s.objs
    case CreateRouter(r, spec) => r !in s.routers && ValidKey(r)
    case EditRouter(r, spec) => r in s.routers
    case DeleteRouter(r) => r in s.routers
    case CreateSecret(k) => k !in s.secrets
    case DeleteSecret(k) => k in s.secrets
  }

  ghost predicate ObjectEnabled(s: State, step: Step)
    requires !ByUser(step) && !ByRouter(step)
  {
    match step
    case GetObj(o) => ObjPcOf(s, o).Idle? && o in s.objs
    case DecideObj(o, res) => ObjPcOf(s, o).Read? && (res.Resolved? ==> ValidKey(res.key))
    case StoreObjOk(o) =>
      var pc := ObjPcOf(s, o);
      pc.Put? && o in s.objs && s.objs[o].rv == pc.snap.rv
    case FailObj(o, report) => !ObjPcOf(s, o).Idle? && (report ==> !ObjPcOf(s, o).Put?)
    case SkipTarget(o, t) =>
      var pc := ObjPcOf(s, o);
      pc.Cleaning? && t in pc.todo &&
      (KeyFromRef(o.ns, t).name == "" ||
       (pc.exclude != "" && (t == pc.exclude || KeyFromRef(o.ns, t) == KeyFromRef(o.ns, pc.exclude))))
    case LockTarget(o, t) =>
      var pc := ObjPcOf(s, o);
      pc.Cleaning? && t in pc.todo && FenceFree(s, KeyFromRef(o.ns, t))
    case Connect(o) =>
      var pc := ObjPcOf(s, o);
      (pc.CleaningAt? || pc.ApplyingAt?) && pc.pending != [] &&
      Dialable(pc.pending[0]) && HasSecret(s, pc.key, pc.pending[0])
    case MissSecret(o) =>
      var pc := ObjPcOf(s, o);
      pc.CleaningAt? && pc.pending != [] && !HasSecret(s, pc.key, pc.pending[0])
    case EraseAt(o, e) =>
      var pc := ObjPcOf(s, o);
      pc.CleaningAt? && pc.pending == [] && e in pc.eps
    case UnlockTarget(o) =>
      var pc := ObjPcOf(s, o);
      pc.CleaningAt? && pc.pending == [] && pc.eps == {}
    case ReachGoal(o) =>
      var pc := ObjPcOf(s, o);
      pc.Cleaning? && pc.todo == {}
    case LockApply(o) =>
      var pc := ObjPcOf(s, o);
      pc.Applying? && FenceFree(s, pc.key) && pc.key in s.routers && Active(s.routers[pc.key])
    case ApplyAt(o, _) =>
      var pc := ObjPcOf(s, o);
      pc.ApplyingAt? && pc.pending == [] && pc.queue != []
    case Applied(o) =>
      var pc := ObjPcOf(s, o);
      pc.ApplyingAt? && pc.pending == [] && pc.queue == []
  }

  ghost predicate RouterEnabled(s: State, step: Step)
    requires ByRouter(step)
  {
    match step
    case GetRouter(r) => RouterPcOf(s, r).RIdle? && r in s.routers
    case DecideRouter(r, _) => RouterPcOf(s, r).RRead?
    case LockRouter(r, _) => RouterPcOf(s, r).RWait? && FenceFree(s, r) && r in s.routers
    case Classify(r, e) =>
      var pc := RouterPcOf(s, r);
      pc.RSweep? && e in pc.todo
    case SweepAt(r, e) =>
      var pc := RouterPcOf(s, r);
      pc.RSweep? && e in pc.owned
    case FinishSweep(r) =>
      var pc := RouterPcOf(s, r);
      pc.RSweep? && pc.todo == {} && pc.owned == {}
    case StoreRouterOk(r) =>
      var pc := RouterPcOf(s, r);
      pc.RPut? && r in s.routers && s.routers[r].rv == pc.snap.rv
    case FailRouter(r, report) =>
      var pc := RouterPcOf(s, r);
      !pc.RIdle? && (report ==> (pc.RSweep? && !pc.final) || (pc.RPut? && pc.fenced && !pc.snap.deleting))
  }

  ghost predicate Enabled(s: State, step: Step) {
    if ByUser(step) then UserEnabled(s, step)
    else if ByRouter(step) then RouterEnabled(s, step)
    else ObjectEnabled(s, step)
  }

  /** RouterReconciler.Reconcile between its first read and its first write or its wait for the fence. */
  function DecideRouterPc(snap: Router, owned: bool): RouterPc {
    var union := EndpointUnion(snap.applied, snap.spec);
    if snap.deleting then RWait(true)
    else if snap.spec == [] || !AllDialable(snap.spec) then RPut(snap, snap, {}, {}, false)
    else if !snap.finalizer then RPut(snap, snap.(finalizer := true), {}, {}, false)
    else if !owned then RPut(snap, snap, {}, {}, false)
    else if union != snap.applied then RPut(snap, snap.(applied := union), {}, {}, false)
    else RWait(false)
  }

  /** The same pass, once it holds the fence and has read the router again. */
  function LockRouterPc(snap: Router, deletion: bool, owned: bool): RouterPc {
    if snap.deleting then
      if !snap.finalizer then RIdle
      else RSweep(snap, Keys(CleanupEndpoints(snap)), {}, {}, {}, true)
    else if deletion then RIdle
    else if !owned then RPut(snap, snap, {}, {}, false)
    else RSweep(snap, Keys(Filter(snap.applied)) - Keys(snap.spec), {}, {}, {}, false)
  }

  /* ---- Where a step takes an object's worker ---- */

  function Locked(pc: ObjPc, t: string, key: Key, router: Router): ObjPc
    requires pc.Cleaning?
  {
    var eps := CleanupEndpoints(router);
    CleaningAt(pc.snap, pc.todo, pc.missed, pc.exclude, pc.goal, t, key, eps, Keys(eps))
  }

  function Opened(pc: ObjPc, router: Router): ObjPc
    requires pc.Applying?
  {
    ApplyingAt(pc.snap, pc.key, router, router.spec, router.spec)
  }

  function Connected(pc: ObjPc): ObjPc
    requires (pc.CleaningAt? || pc.ApplyingAt?) && pc.pending != []
  {
    if pc.CleaningAt? then
      CleaningAt(pc.snap, pc.todo, pc.missed, pc.exclude, pc.goal, pc.target, pc.key, pc.pending[1..], pc.eps)
    else ApplyingAt(pc.snap, pc.key, pc.router, pc.pending[1..], pc.queue)
  }

  function ErasedAt(pc: ObjPc, e: Ep): ObjPc
    requires pc.CleaningAt?
  {
    CleaningAt(pc.snap, pc.todo, pc.missed, pc.exclude, pc.goal, pc.target, pc.key, pc.pending, pc.eps - {e})
  }

  function Reached(pc: ObjPc): ObjPc
    requires pc.Cleaning?
  {
    match pc.goal
    case Finalize => if pc.snap.finalizer then Put(pc.snap, pc.snap.(finalizer := false), pc.missed) else Idle
    case CompactTo(ref) =>
      if pc.snap.annotation == ref then Idle else Put(pc.snap, pc.snap.(annotation := ref), pc.missed)
  }

  ghost function UserNext(s: State, step: Step): State
    requires ByUser(step) && UserEnabled(s, step)
  {
    match step
    case CreateObj(o, ready, specRef) => StoreObj(s, o, Obj(0, false, false, ready, specRef, "", "", false))
    case EditObj(o, ready, specRef) => StoreObj(s, o, s.objs[o].(ready := ready, specRef := specRef))
    case DeleteObj(o) => StoreObj(s, o, s.objs[o].(deleting := true))
    case CreateRouter(r, spec) => StoreRouter(s, r, Router(0, false, false, spec, []))
    case EditRouter(r, spec) => StoreRouter(s, r, s.routers[r].(spec := spec))
    case DeleteRouter(r) => StoreRouter(s, r, s.routers[r].(deleting := true))
    case CreateSecret(k) => s.(secrets := s.secrets + {k})
    case DeleteSecret(k) => s.(secrets := s.secrets - {k})
  }

  /** What a step of an object's worker does to stored objects and devices. */
  ghost function ObjectEffect(s: State, step: Step): State
    requires !ByUser(step) && !ByRouter(step) && ObjectEnabled(s, step)
  {
    match step
    case StoreObjOk(o) => StoreObj(s, o, ObjPcOf(s, o).next)
    case EraseAt(o, e) => EraseEntry(s, Spot(o, e))
    case ApplyAt(o, present) =>
      var pc := ObjPcOf(s, o);
      var sp := Spot(o, pc.queue[0].key);
      if present then WriteEntry(s, sp, pc.key) else EraseEntry(s, sp)
    case _ => s
  }

  /** Where it takes the worker. */
  ghost function ObjectMove(s: State, step: Step): ObjPc
    requires !ByUser(step) && !ByRouter(step) && ObjectEnabled(s, step)
  {
    var pc := ObjPcOf(s, step.o);
    match step
    case GetObj(o) => Read(s.objs[o])
    case DecideObj(o, res) =>
      (match Decide(o.ns, pc.snap, res)
       case Store(next) => Put(pc.snap, next, {})
       case CleanUp(todo, exclude, goal) => Cleaning(pc.snap, todo, {}, exclude, goal)
       case Write(key) => Applying(pc.snap, key))
    case StoreObjOk(_) => Idle
    case FailObj(_, report) => if report then Put(pc.snap, pc.snap.(applied := false), {}) else Idle
    case SkipTarget(_, t) => Cleaning(pc.snap, pc.todo - {t}, pc.missed, pc.exclude, pc.goal)
    case LockTarget(o, t) =>
      var key := KeyFromRef(o.ns, t);
      if key in s.routers then Locked(pc, t, key, s.routers[key])
      else Cleaning(pc.snap, pc.todo - {t}, pc.missed, pc.exclude, pc.goal)
    case Connect(_) => Connected(pc)
    case MissSecret(_) =>
      // the error reads as "router not found", so the target counts as cleaned
      Cleaning(pc.snap, pc.todo - {pc.target}, pc.missed + {pc.target}, pc.exclude, pc.goal)
    case EraseAt(_, e) => ErasedAt(pc, e)
    case UnlockTarget(_) => Cleaning(pc.snap, pc.todo - {pc.target}, pc.missed, pc.exclude, pc.goal)
    case ReachGoal(_) => Reached(pc)
    case LockApply(_) => Opened(pc, s.routers[pc.key])
    case ApplyAt(_, _) => ApplyingAt(pc.snap, pc.key, pc.router, [], pc.queue[1..])
    case Applied(o) => Put(pc.snap, pc.snap.(applied := true, statusRef := RefStorage(o.ns, pc.key)), {})
  }

  ghost function ObjectNext(s: State, step: Step): State
    requires !ByUser(step) && !ByRouter(step) && ObjectEnabled(s, step)
  {
    AtObj(ObjectEffect(s, step), step.o, ObjectMove(s, step))
  }

  /** What a step of a router's worker does to stored routers and devices. */
  ghost function RouterEffect(s: State, step: Step): State
    requires ByRouter(step) && RouterEnabled(s, step)
  {
    match step
    case SweepAt(r, e) => SweepDevice(s, e)
    case StoreRouterOk(r) => StoreRouter(s, r, RouterPcOf(s, r).next)
    case _ => s
  }

  /** Where it takes the worker. */
  ghost function RouterMove(s: State, step: Step): RouterPc
    requires ByRouter(step) && RouterEnabled(s, step)
  {
    var pc := RouterPcOf(s, step.r);
    match step
    case GetRouter(r) => RRead(s.routers[r])
    case DecideRouter(_, owned) => DecideRouterPc(pc.snap, owned)
    case LockRouter(r, owned) => LockRouterPc(s.routers[r], pc.deletion, owned)
    case Classify(r, e) =>
      if ClaimedByOther(s, r, e) then RSweep(pc.snap, pc.todo - {e}, pc.claimed + {e}, pc.owned, pc.swept, pc.final)
      else RSweep(pc.snap, pc.todo - {e}, pc.claimed, pc.owned + {e}, pc.swept, pc.final)
    case SweepAt(_, e) => RSweep(pc.snap, pc.todo, pc.claimed, pc.owned - {e}, pc.swept + {e}, pc.final)
    case FinishSweep(_) =>
      var next := if pc.final then pc.snap.(finalizer := false) else pc.snap.(applied := pc.snap.spec);
      // with an up-to-date history the pass of a live router also connects to every current endpoint
      var touched := if !pc.final && pc.snap.applied == pc.snap.spec then pc.swept + Keys(pc.snap.spec) else pc.swept;
      RPut(pc.snap, next, pc.claimed, touched, true)
    case StoreRouterOk(_) => RIdle
    case FailRouter(_, report) =>
      if !report then RIdle
      else if pc.RSweep? then RPut(pc.snap, pc.snap, {}, pc.swept, false)
      else RPut(pc.snap, pc.next, pc.claimed, pc.touched, false)
  }

  ghost function RouterNext(s: State, step: Step): State
    requires ByRouter(step) && RouterEnabled(s, step)
  {
    AtRouter(RouterEffect(s, step), step.r, RouterMove(s, step))
  }

  ghost function Next(s: State, step: Step): State
    requires Enabled(s, step)
  {
    if ByUser(step) then UserNext(s, step)
    else if ByRouter(step) then RouterNext(s, step)
    else ObjectNext(s, step)
  }

  /** The state after each step of a run; a run is a list of steps, each enabled where it is taken. */
  ghost predicate IsRun(s: State, steps: seq<Step>)
    decreases |steps|
  {
    steps == [] || (Enabled(s, steps[0]) && IsRun(Next(s, steps[0]), steps[1..]))
  }

  ghost function After(s: State, steps: seq<Step>): State
    requires IsRun(s, steps)
    decreases |steps|
  {
    if steps == [] then s else After(Next(s, steps[0]), steps[1..])
  }

  lemma RunSplit(s: State, steps: seq<Step>) returns (n: State, rest: seq<Step>)
    requires IsRun(s, steps) && steps != []
    ensures Enabled(s, steps[0]) && n == Next(s, steps[0]) && rest == steps[1..] && IsRun(n, rest)
    ensures After(s, steps) == After(n, rest)
  {
    n, rest := Next(s, steps[0]), steps[1..];
  }

  lemma RunJoin(s: State, step: Step, n: State, rest: seq<Step>, steps: seq<Step>)
    requires Enabled(s, step) && n == Next(s, step) && IsRun(n, rest) && steps == [step] + rest
    ensures IsRun(s, steps) && After(s, steps) == After(n, rest)
  {
    assert steps[0] == step && steps[1..] == rest;
  }

  lemma ConsConcat(a: seq<Step>, b: seq<Step>)
    requires a != []
    ensures a + b == [a[0]] + (a[1..] + b)
  {
  }

  lemma {:induction false} RunConcat(s: State, a: seq<Step>, b: seq<Step>)
    requires IsRun(s, a) && IsRun(After(s, a), b)
    ensures IsRun(s, a + b) && After(s, a + b) == After(After(s, a), b)
    decreases |a|
  {
    if a == [] {
      assert a + b == b;
    } else {
      ConsConcat(a, b);
      var n, rest := RunSplit(s, a);
      RunConcat(n, rest, b);
      RunJoin(s, a[0], n, rest + b, a + b);
    }
  }
}
