/**
  Progress of one object when its router reference resolves and no call fails: each pass of the
  worker is a run of the transition system, and five passes reach the applied state.
 */
module RoutePasses {
  import opened Text
  import opened Targets
  import opened Cluster
  import opened ClusterSafety
  import opened ClusterRuns

  /* ---- Failure-free runs of one worker ---- */

  predicate StepOf(o: Key, step: Step) {
    match step
    case GetObj(p) => p == o
    case DecideObj(p, res) => p == o && res.Resolved?
    case StoreObjOk(p) => p == o
    case SkipTarget(p, _) => p == o
    case LockTarget(p, _) => p == o
    case Connect(p) => p == o
    case MissSecret(p) => p == o
    case EraseAt(p, _) => p == o
    case UnlockTarget(p) => p == o
    case ReachGoal(p) => p == o
    case LockApply(p) => p == o
    case ApplyAt(p, present) => p == o && present
    case Applied(p) => p == o
    case _ => false
  }

  /** The worker of `o` alone, without a failing call, takes `s` to `t`. */
  ghost predicate Leads(s: State, o: Key, t: State) {
    exists steps :: Path(s, o, steps, t)
  }

  ghost predicate Path(s: State, o: Key, steps: seq<Step>, t: State) {
    IsRun(s, steps) && After(s, steps) == t && forall i :: 0 <= i < |steps| ==> StepOf(o, steps[i])
  }

  lemma Stays(s: State, o: Key)
    ensures Leads(s, o, s)
  {
    assert Path(s, o, [], s);
  }

  lemma One(s: State, o: Key, step: Step)
    requires Enabled(s, step) && StepOf(o, step)
    ensures Leads(s, o, Next(s, step))
  {
    var t := Next(s, step);
    assert IsRun(t, [][..]) && [step][1..] == [];
    assert Path(s, o, [step], t);
  }

  lemma Then(s: State, o: Key, t: State, u: State)
    requires Leads(s, o, t) && Leads(t, o, u)
    ensures Leads(s, o, u)
  {
    var a :| Path(s, o, a, t);
    var b :| Path(t, o, b, u);
    RunConcat(s, a, b);
    assert Path(s, o, a + b, u);
  }

  lemma ThenOne(s: State, o: Key, t: State, step: Step)
    requires Leads(s, o, t) && Enabled(t, step) && StepOf(o, step)
    ensures Leads(s, o, Next(t, step))
  {
    One(t, o, step);
    Then(s, o, t, Next(t, step));
  }

  /** No worker other than that of `o` holds a fence. */
  ghost predicate Alone(s: State, o: Key) {
    && (forall p, r :: p != o ==> !ObjHolds(ObjPcOf(s, p), r))
    && (forall r :: !RouterHolds(RouterPcOf(s, r)))
  }

  lemma FreeWhenAlone(s: State, o: Key, pc: ObjPc, r: Key)
    requires Alone(s, o) && !ObjHolds(pc, r)
    ensures FenceFree(AtObj(s, o, pc), r)
  {
    var t := AtObj(s, o, pc);
    forall p ensures !ObjHolds(ObjPcOf(t, p), r) {
      assert p != o ==> ObjPcOf(t, p) == ObjPcOf(s, p) && !ObjHolds(ObjPcOf(s, p), r);
    }
    assert RouterPcOf(t, r) == RouterPcOf(s, r);
  }

  lemma Moved(s: State, o: Key, a: ObjPc, b: ObjPc)
    ensures AtObj(AtObj(s, o, a), o, b) == AtObj(s, o, b)
    ensures ObjPcOf(AtObj(s, o, a), o) == a
  {
    assert s.opcs[o := a][o := b] == s.opcs[o := b];
  }

  /* ---- The effect of one pass ---- */

  /** `s` without the entries of `o` on the devices `eps`. */
  ghost function Erased(s: State, o: Key, eps: set<Ep>): State {
    var gone := set e | e in eps :: Spot(o, e);
    s.(dev := s.dev - gone, orphans := s.orphans - gone)
  }

  predicate Skipped(o: Key, t: string, exclude: string) {
    KeyFromRef(o.ns, t).name == "" ||
    (exclude != "" && (t == exclude || KeyFromRef(o.ns, t) == KeyFromRef(o.ns, exclude)))
  }

  /** Every Secret that a cleanup of router `r` asks for is there. */
  predicate Found(s: State, r: Key)
    requires r in s.routers
  {
    forall e :: e in CleanupEndpoints(s.routers[r]) ==> HasSecret(s, r, e)
  }

  /** Router `r` takes new configuration: it is active, its endpoints are filled in, their Secrets are there. */
  predicate Ready(s: State, r: Key) {
    r in s.routers && Active(s.routers[r]) && AllDialable(s.routers[r].spec) &&
    forall e :: e in s.routers[r].spec ==> HasSecret(s, r, e)
  }

  /** cleanupRouterTargets reaches the router of the target, if only to find a Secret missing. */
  predicate Reaches(s: State, o: Key, t: string, exclude: string) {
    !Skipped(o, t, exclude) && KeyFromRef(o.ns, t) in s.routers
  }

  /** The devices cleanupRouterTargets visits for one target. */
  function VisitedFor(s: State, o: Key, t: string, exclude: string): set<Ep> {
    var key := KeyFromRef(o.ns, t);
    if Reaches(s, o, t, exclude) && Found(s, key) then Keys(CleanupEndpoints(s.routers[key])) else {}
  }

  function Visited(s: State, o: Key, todo: set<string>, exclude: string): set<Ep> {
    set t, e | t in todo && e in VisitedFor(s, o, t, exclude) :: e
  }

  /** Whether the target is given up for a missing Secret. */
  predicate GivenUp(s: State, o: Key, t: string, exclude: string) {
    Reaches(s, o, t, exclude) && !Found(s, KeyFromRef(o.ns, t))
  }

  function Lost(s: State, o: Key, todo: set<string>, exclude: string): set<string> {
    set t | t in todo && GivenUp(s, o, t, exclude)
  }

  /** `s` with entries of `o` on the devices `eps`, written through `r`. */
  ghost function Written(s: State, o: Key, eps: set<Ep>, r: Key): State {
    var spots := set e | e in eps :: Spot(o, e);
    var unlisted := set e | e in eps && !ListedAt(s, r, e) :: Spot(o, e);
    s.(dev := map sp | sp in s.dev.Keys + spots :: if sp in spots then r else s.dev[sp],
       orphans := s.orphans - spots + unlisted)
  }

  /** What one pass of Reconcile does to the system when the reference resolves to `key` and nothing fails. */
  ghost function Pass(s: State, o: Key, key: Key): (t: State)
    requires o in s.objs && !s.objs[o].deleting && key in s.routers
    ensures o in t.objs && !t.objs[o].deleting && t.objs[o].ready == s.objs[o].ready
    ensures t.routers == s.routers && t.secrets == s.secrets && t.opcs == s.opcs && t.rpcs == s.rpcs
    ensures t.objs[o].specRef == s.objs[o].specRef
  {
    match Decide(o.ns, s.objs[o], Resolved(key))
    case Store(next) => StoreObj(s, o, next)
    case CleanUp(todo, exclude, goal) =>
      StoreObj(Erased(s, o, Visited(s, o, todo, exclude)), o, s.objs[o].(annotation := RefStorage(o.ns, key)))
    case Write(_) =>
      StoreObj(Written(s, o, Keys(s.routers[key].spec), key), o,
               s.objs[o].(applied := true, statusRef := RefStorage(o.ns, key)))
  }

  /* ---- Each pass is a run ---- */

  lemma ErasedTwice(s: State, o: Key, a: set<Ep>, b: set<Ep>)
    ensures Erased(Erased(s, o, a), o, b) == Erased(s, o, a + b)
  {
    var ga := set e | e in a :: Spot(o, e);
    var gb := set e | e in b :: Spot(o, e);
    assert (set e | e in a + b :: Spot(o, e)) == ga + gb;
    assert s.dev - ga - gb == s.dev - (ga + gb);
  }

  lemma ErasedNone(s: State, o: Key)
    ensures Erased(s, o, {}) == s
  {
    assert (set e: Ep | e in {} :: Spot(o, e)) == {};
  }

  lemma EraseOne(s: State, o: Key, pc: ObjPc, e: Ep)
    requires pc.CleaningAt? && pc.pending == [] && e in pc.eps
    ensures Leads(AtObj(s, o, pc), o, AtObj(Erased(s, o, {e}), o, ErasedAt(pc, e)))
  {
    Moved(s, o, pc, ErasedAt(pc, e));
    One(AtObj(s, o, pc), o, EraseAt(o, e));
    assert (set x | x in {e} :: Spot(o, x)) == {Spot(o, e)};
    assert Erased(s, o, {e}) == EraseEntry(s, Spot(o, e));
  }

  function AllErased(pc: ObjPc): ObjPc
    requires pc.CleaningAt?
  {
    CleaningAt(pc.snap, pc.todo, pc.missed, pc.exclude, pc.goal, pc.target, pc.key, [], {})
  }

  lemma {:induction false} EraseRun(s: State, o: Key, pc: ObjPc)
    requires pc.CleaningAt? && pc.pending == []
    ensures Leads(AtObj(s, o, pc), o, AtObj(Erased(s, o, pc.eps), o, AllErased(pc)))
    decreases |pc.eps|
  {
    if pc.eps == {} {
      ErasedNone(s, o);
      Stays(AtObj(s, o, pc), o);
    } else {
      var e :| e in pc.eps;
      var next := ErasedAt(pc, e);
      EraseOne(s, o, pc, e);
      EraseRun(Erased(s, o, {e}), o, next);
      ErasedTwice(s, o, {e}, pc.eps - {e});
      assert {e} + (pc.eps - {e}) == pc.eps;
      Then(AtObj(s, o, pc), o, AtObj(Erased(s, o, {e}), o, next), AtObj(Erased(s, o, pc.eps), o, AllErased(pc)));
    }
  }

  /** The worker once it has connected to every pending endpoint. */
  function AllConnected(pc: ObjPc): ObjPc
    requires pc.CleaningAt? || pc.ApplyingAt?
  {
    if pc.CleaningAt? then
      CleaningAt(pc.snap, pc.todo, pc.missed, pc.exclude, pc.goal, pc.target, pc.key, [], pc.eps)
    else ApplyingAt(pc.snap, pc.key, pc.router, [], pc.queue)
  }

  predicate CanConnect(s: State, r: Key, es: seq<Endpoint>) {
    forall e :: e in es ==> Dialable(e) && HasSecret(s, r, e)
  }

  lemma ConnectOne(s: State, o: Key, pc: ObjPc)
    requires (pc.CleaningAt? || pc.ApplyingAt?) && pc.pending != []
    requires Dialable(pc.pending[0]) && HasSecret(s, pc.key, pc.pending[0])
    ensures Leads(AtObj(s, o, pc), o, AtObj(s, o, Connected(pc)))
  {
    Moved(s, o, pc, Connected(pc));
    One(AtObj(s, o, pc), o, Connect(o));
  }

  lemma {:induction false} ConnectRun(s: State, o: Key, pc: ObjPc)
    requires (pc.CleaningAt? || pc.ApplyingAt?) && CanConnect(s, pc.key, pc.pending)
    ensures Leads(AtObj(s, o, pc), o, AtObj(s, o, AllConnected(pc)))
    decreases |pc.pending|
  {
    if pc.pending == [] {
      Stays(AtObj(s, o, pc), o);
    } else {
      ConnectOne(s, o, pc);
      ConnectRun(s, o, Connected(pc));
      Then(AtObj(s, o, pc), o, AtObj(s, o, Connected(pc)), AtObj(s, o, AllConnected(pc)));
    }
  }

  /** The worker goes on with the next target, having given up on `t` or not. */
  function NextPc(pc: ObjPc, t: string, givenUp: bool): ObjPc
    requires pc.Cleaning? || pc.CleaningAt?
  {
    Cleaning(pc.snap, pc.todo - {t}, if givenUp then pc.missed + {t} else pc.missed, pc.exclude, pc.goal)
  }

  lemma {:induction false} GiveUpRun(s: State, o: Key, pc: ObjPc)
    requires pc.CleaningAt? && AllDialable(pc.pending) && !CanConnect(s, pc.key, pc.pending)
    ensures Leads(AtObj(s, o, pc), o, AtObj(s, o, NextPc(pc, pc.target, true)))
    decreases |pc.pending|
  {
    var e := pc.pending[0];
    if HasSecret(s, pc.key, e) {
      assert pc.pending == [e] + pc.pending[1..];
      ConnectOne(s, o, pc);
      GiveUpRun(s, o, Connected(pc));
      Then(AtObj(s, o, pc), o, AtObj(s, o, Connected(pc)), AtObj(s, o, NextPc(pc, pc.target, true)));
    } else {
      Moved(s, o, pc, NextPc(pc, pc.target, true));
      One(AtObj(s, o, pc), o, MissSecret(o));
    }
  }

  lemma SkipOne(s: State, o: Key, pc: ObjPc, t: string)
    requires pc.Cleaning? && t in pc.todo && Skipped(o, t, pc.exclude)
    ensures Leads(AtObj(s, o, pc), o, AtObj(s, o, NextPc(pc, t, false)))
  {
    Moved(s, o, pc, NextPc(pc, t, false));
    One(AtObj(s, o, pc), o, SkipTarget(o, t));
  }

  lemma MissOne(s: State, o: Key, pc: ObjPc, t: string)
    requires Alone(s, o) && pc.Cleaning? && t in pc.todo && KeyFromRef(o.ns, t) !in s.routers
    ensures Leads(AtObj(s, o, pc), o, AtObj(s, o, NextPc(pc, t, false)))
  {
    Moved(s, o, pc, NextPc(pc, t, false));
    FreeWhenAlone(s, o, pc, KeyFromRef(o.ns, t));
    One(AtObj(s, o, pc), o, LockTarget(o, t));
  }

  lemma LockOne(s: State, o: Key, pc: ObjPc, t: string)
    requires Alone(s, o) && pc.Cleaning? && t in pc.todo && KeyFromRef(o.ns, t) in s.routers
    ensures var key := KeyFromRef(o.ns, t);
      Leads(AtObj(s, o, pc), o, AtObj(s, o, Locked(pc, t, key, s.routers[key])))
  {
    var key := KeyFromRef(o.ns, t);
    Moved(s, o, pc, Locked(pc, t, key, s.routers[key]));
    FreeWhenAlone(s, o, pc, key);
    One(AtObj(s, o, pc), o, LockTarget(o, t));
  }

  lemma UnlockOne(s: State, o: Key, pc: ObjPc)
    requires pc.CleaningAt? && pc.pending == [] && pc.eps == {}
    ensures Leads(AtObj(s, o, pc), o, AtObj(s, o, NextPc(pc, pc.target, false)))
  {
    Moved(s, o, pc, NextPc(pc, pc.target, false));
    One(AtObj(s, o, pc), o, UnlockTarget(o));
  }

  /** A locked target whose Secrets are there: connected, cleaned and unlocked. */
  lemma VisitRun(s: State, o: Key, pc: ObjPc)
    requires pc.CleaningAt? && CanConnect(s, pc.key, pc.pending)
    ensures Leads(AtObj(s, o, pc), o, AtObj(Erased(s, o, pc.eps), o, NextPc(pc, pc.target, false)))
  {
    var open := AllConnected(pc);
    var m := Erased(s, o, pc.eps);
    ConnectRun(s, o, pc);
    EraseRun(s, o, open);
    Then(AtObj(s, o, pc), o, AtObj(s, o, open), AtObj(m, o, AllErased(open)));
    UnlockOne(m, o, AllErased(open));
    Then(AtObj(s, o, pc), o, AtObj(m, o, AllErased(open)), AtObj(m, o, NextPc(pc, pc.target, false)));
  }

  /** One target: skipped, its router missing, given up, or locked, cleaned and unlocked. */
  lemma TargetRun(s: State, o: Key, pc: ObjPc, t: string)
    requires Alone(s, o) && pc.Cleaning? && t in pc.todo
    ensures Leads(AtObj(s, o, pc), o, AtObj(Erased(s, o, VisitedFor(s, o, t, pc.exclude)), o,
                  NextPc(pc, t, GivenUp(s, o, t, pc.exclude))))
  {
    var key := KeyFromRef(o.ns, t);
    ErasedNone(s, o);
    if Skipped(o, t, pc.exclude) {
      SkipOne(s, o, pc, t);
    } else if key !in s.routers {
      MissOne(s, o, pc, t);
    } else {
      var locked := Locked(pc, t, key, s.routers[key]);
      LockOne(s, o, pc, t);
      if Found(s, key) {
        VisitRun(s, o, locked);
        Then(AtObj(s, o, pc), o, AtObj(s, o, locked), AtObj(Erased(s, o, locked.eps), o, NextPc(pc, t, false)));
      } else {
        GiveUpRun(s, o, locked);
        Then(AtObj(s, o, pc), o, AtObj(s, o, locked), AtObj(s, o, NextPc(pc, t, true)));
      }
    }
  }

  lemma SameVisit(s: State, o: Key, exclude: string, eps: set<Ep>, x: string)
    ensures VisitedFor(Erased(s, o, eps), o, x, exclude) == VisitedFor(s, o, x, exclude)
    ensures GivenUp(Erased(s, o, eps), o, x, exclude) <==> GivenUp(s, o, x, exclude)
  {
    var key := KeyFromRef(o.ns, x);
    if key in s.routers { assert Found(Erased(s, o, eps), key) <==> Found(s, key); }
  }

  lemma VisitedSplit(s: State, o: Key, todo: set<string>, exclude: string, t: string, eps: set<Ep>)
    requires t in todo
    ensures Visited(s, o, todo, exclude) ==
            VisitedFor(s, o, t, exclude) + Visited(Erased(s, o, eps), o, todo - {t}, exclude)
  {
    forall x { SameVisit(s, o, exclude, eps, x); }
  }

  lemma LostSplit(s: State, o: Key, todo: set<string>, exclude: string, t: string, eps: set<Ep>)
    requires t in todo
    ensures Lost(s, o, todo, exclude) ==
            (if GivenUp(s, o, t, exclude) then {t} else {}) + Lost(Erased(s, o, eps), o, todo - {t}, exclude)
  {
    forall x { SameVisit(s, o, exclude, eps, x); }
  }

  function Cleaned(s: State, o: Key, pc: ObjPc): ObjPc
    requires pc.Cleaning?
  {
    Cleaning(pc.snap, {}, pc.missed + Lost(s, o, pc.todo, pc.exclude), pc.exclude, pc.goal)
  }

  lemma CleanedSplit(s: State, o: Key, pc: ObjPc, t: string, eps: set<Ep>)
    requires pc.Cleaning? && t in pc.todo
    ensures Cleaned(Erased(s, o, eps), o, NextPc(pc, t, GivenUp(s, o, t, pc.exclude))) == Cleaned(s, o, pc)
  {
    LostSplit(s, o, pc.todo, pc.exclude, t, eps);
    var rest := Lost(Erased(s, o, eps), o, pc.todo - {t}, pc.exclude);
    assert pc.missed + {t} + rest == pc.missed + ({t} + rest);
    assert pc.missed + ({} + rest) == pc.missed + rest;
  }

  lemma CleanNothing(s: State, o: Key, pc: ObjPc)
    requires pc.Cleaning? && pc.todo == {}
    ensures Visited(s, o, pc.todo, pc.exclude) == {} && Cleaned(s, o, pc) == pc && Erased(s, o, {}) == s
  {
    ErasedNone(s, o);
    assert Lost(s, o, {}, pc.exclude) == {};
    assert pc.missed + {} == pc.missed;
  }

  lemma {:induction false} CleanRun(s: State, o: Key, pc: ObjPc)
    requires Alone(s, o) && pc.Cleaning?
    ensures Leads(AtObj(s, o, pc), o, AtObj(Erased(s, o, Visited(s, o, pc.todo, pc.exclude)), o, Cleaned(s, o, pc)))
    decreases |pc.todo|
  {
    if pc.todo == {} {
      CleanNothing(s, o, pc);
      Stays(AtObj(s, o, pc), o);
    } else {
      var t :| t in pc.todo;
      var eps := VisitedFor(s, o, t, pc.exclude);
      var next := NextPc(pc, t, GivenUp(s, o, t, pc.exclude));
      var m := Erased(s, o, eps);
      TargetRun(s, o, pc, t);
      StillAlone(s, o, m);
      CleanRun(m, o, next);
      var rest := Visited(m, o, next.todo, pc.exclude);
      VisitedSplit(s, o, pc.todo, pc.exclude, t, eps);
      ErasedTwice(s, o, eps, rest);
      CleanedSplit(s, o, pc, t, eps);
      Then(AtObj(s, o, pc), o, AtObj(m, o, next), AtObj(Erased(s, o, eps + rest), o, Cleaned(s, o, pc)));
    }
  }

  lemma StillAlone(s: State, o: Key, t: State)
    requires Alone(s, o) && t.opcs == s.opcs && t.rpcs == s.rpcs
    ensures Alone(t, o)
  {
    assert forall p :: ObjPcOf(t, p) == ObjPcOf(s, p);
    assert forall r :: RouterPcOf(t, r) == RouterPcOf(s, r);
  }

  lemma WrittenTwice(s: State, o: Key, a: set<Ep>, b: set<Ep>, r: Key)
    ensures Written(Written(s, o, a, r), o, b, r) == Written(s, o, a + b, r)
  {
    WrittenDev(s, o, a, b, r);
    WrittenOrphans(s, o, a, b, r);
  }

  lemma WrittenDev(s: State, o: Key, a: set<Ep>, b: set<Ep>, r: Key)
    ensures Written(Written(s, o, a, r), o, b, r).dev == Written(s, o, a + b, r).dev
  {
    var once, twice := Written(s, o, a + b, r).dev, Written(Written(s, o, a, r), o, b, r).dev;
    forall sp ensures sp in once <==> sp in twice { WrittenSpot(s, o, a, b, r, sp); }
    forall sp | sp in once ensures once[sp] == twice[sp] { WrittenSpot(s, o, a, b, r, sp); }
  }

  lemma WrittenSpot(s: State, o: Key, a: set<Ep>, b: set<Ep>, r: Key, sp: Spot)
    ensures var once, twice := Written(s, o, a + b, r).dev, Written(Written(s, o, a, r), o, b, r).dev;
      (sp in once <==> sp in twice) && (sp in once ==> once[sp] == twice[sp])
  {
    assert sp == Spot(sp.obj, sp.ep);
  }

  lemma WrittenOrphans(s: State, o: Key, a: set<Ep>, b: set<Ep>, r: Key)
    ensures Written(Written(s, o, a, r), o, b, r).orphans == Written(s, o, a + b, r).orphans
  {
    var m := Written(s, o, a, r);
    assert forall e :: ListedAt(m, r, e) <==> ListedAt(s, r, e);
    forall sp ensures sp in Written(m, o, b, r).orphans <==> sp in Written(s, o, a + b, r).orphans {
      assert sp == Spot(sp.obj, sp.ep);
    }
  }

  lemma WrittenOne(s: State, o: Key, e: Ep, r: Key)
    ensures Written(s, o, {e}, r) == WriteEntry(s, Spot(o, e), r)
  {
    assert (set x | x in {e} :: Spot(o, x)) == {Spot(o, e)};
    assert Written(s, o, {e}, r).dev == s.dev[Spot(o, e) := r];
    var unlisted := set x | x in {e} && !ListedAt(s, r, x) :: Spot(o, x);
    assert unlisted == if ListedAt(s, r, e) then {} else {Spot(o, e)};
    assert s.orphans - {Spot(o, e)} + {Spot(o, e)} == s.orphans + {Spot(o, e)};
  }

  lemma WriteOne(s: State, o: Key, pc: ObjPc)
    requires pc.ApplyingAt? && pc.pending == [] && pc.queue != []
    ensures Leads(AtObj(s, o, pc), o, AtObj(Written(s, o, {pc.queue[0].key}, pc.key), o,
      ApplyingAt(pc.snap, pc.key, pc.router, [], pc.queue[1..])))
  {
    Moved(s, o, pc, ApplyingAt(pc.snap, pc.key, pc.router, [], pc.queue[1..]));
    WrittenOne(s, o, pc.queue[0].key, pc.key);
    One(AtObj(s, o, pc), o, ApplyAt(o, true));
  }

  lemma {:induction false} ApplyRun(s: State, o: Key, pc: ObjPc)
    requires pc.ApplyingAt? && pc.pending == []
    ensures Leads(AtObj(s, o, pc), o,
      AtObj(Written(s, o, Keys(pc.queue), pc.key), o, ApplyingAt(pc.snap, pc.key, pc.router, [], [])))
    decreases |pc.queue|
  {
    if pc.queue == [] {
      assert Keys(pc.queue) == {};
      WrittenNone(s, o, pc.key);
      Stays(AtObj(s, o, pc), o);
    } else {
      var e := pc.queue[0].key;
      var next := ApplyingAt(pc.snap, pc.key, pc.router, [], pc.queue[1..]);
      WriteOne(s, o, pc);
      ApplyRun(Written(s, o, {e}, pc.key), o, next);
      assert pc.queue == [pc.queue[0]] + pc.queue[1..];
      assert Keys(pc.queue) == {e} + Keys(pc.queue[1..]);
      WrittenTwice(s, o, {e}, Keys(pc.queue[1..]), pc.key);
      Then(AtObj(s, o, pc), o, AtObj(Written(s, o, {e}, pc.key), o, next),
           AtObj(Written(s, o, Keys(pc.queue), pc.key), o, ApplyingAt(pc.snap, pc.key, pc.router, [], [])));
    }
  }

  lemma WrittenNone(s: State, o: Key, r: Key)
    ensures Written(s, o, {}, r) == s
  {
    assert (set e: Ep | e in {} :: Spot(o, e)) == {};
    assert Written(s, o, {}, r).dev == s.dev && Written(s, o, {}, r).orphans == s.orphans;
  }

  /** The read and the decision that open every pass. */
  lemma OpenRun(s: State, o: Key, key: Key)
    requires o in s.objs && ObjPcOf(s, o).Idle? && ValidKey(key)
    ensures Leads(s, o, AtObj(s, o, Read(s.objs[o])))
  {
    One(s, o, GetObj(o));
  }

  ghost function Decided(o: Key, snap: Obj, res: Resolution): ObjPc {
    match Decide(o.ns, snap, res)
    case Store(next) => Put(snap, next, {})
    case CleanUp(todo, exclude, goal) => Cleaning(snap, todo, {}, exclude, goal)
    case Write(key) => Applying(snap, key)
  }

  lemma DecideRun(s: State, o: Key, key: Key)
    requires o in s.objs && ObjPcOf(s, o).Idle? && ValidKey(key)
    ensures Leads(s, o, AtObj(s, o, Decided(o, s.objs[o], Resolved(key))))
  {
    var snap := s.objs[o];
    OpenRun(s, o, key);
    Moved(s, o, Read(snap), Decided(o, snap, Resolved(key)));
    ThenOne(s, o, AtObj(s, o, Read(snap)), DecideObj(o, Resolved(key)));
  }

  lemma StoreIgnoresPc(s: State, o: Key, pc: ObjPc, next: Obj)
    ensures AtObj(StoreObj(AtObj(s, o, pc), o, next), o, Idle) == AtObj(StoreObj(s, o, next), o, Idle)
  {
    Moved(StoreObj(s, o, next), o, pc, Idle);
    assert Forgotten(AtObj(s, o, pc), o, next) == Forgotten(s, o, next);
  }

  /** The write that closes every pass. */
  lemma StoreRun(s: State, o: Key, snap: Obj, next: Obj, missed: set<string>)
    requires o in s.objs && s.objs[o] == snap
    ensures Leads(AtObj(s, o, Put(snap, next, missed)), o, AtObj(StoreObj(s, o, next), o, Idle))
  {
    StoreIgnoresPc(s, o, Put(snap, next, missed), next);
    One(AtObj(s, o, Put(snap, next, missed)), o, StoreObjOk(o));
  }

  /** A pass is a run of the worker of `o` in which no call fails, except that a cleanup may miss a Secret. */
  lemma PassIsRun(s: State, o: Key, key: Key)
    requires Alone(s, o) && ObjPcOf(s, o).Idle? && ValidKey(key)
    requires o in s.objs && !s.objs[o].deleting && Ready(s, key)
    ensures Leads(s, o, AtObj(Pass(s, o, key), o, Idle))
  {
    var snap := s.objs[o];
    DecideRun(s, o, key);
    match Decide(o.ns, snap, Resolved(key)) {
      case Store(next) =>
        StoreRun(s, o, snap, next, {});
        Then(s, o, AtObj(s, o, Put(snap, next, {})), AtObj(StoreObj(s, o, next), o, Idle));
      case CleanUp(_, _, _) => CleanPass(s, o, key);
      case Write(_) => WritePass(s, o, key);
    }
  }

  lemma GoalOne(s: State, o: Key, snap: Obj, missed: set<string>, exclude: string, ref: string)
    requires snap.annotation != ref
    ensures Leads(AtObj(s, o, Cleaning(snap, {}, missed, exclude, CompactTo(ref))), o,
                  AtObj(s, o, Put(snap, snap.(annotation := ref), missed)))
  {
    var pc := Cleaning(snap, {}, missed, exclude, CompactTo(ref));
    Moved(s, o, pc, Reached(pc));
    One(AtObj(s, o, pc), o, ReachGoal(o));
  }

  lemma CleanPass(s: State, o: Key, key: Key)
    requires Alone(s, o) && o in s.objs && !s.objs[o].deleting && key in s.routers
    requires Decide(o.ns, s.objs[o], Resolved(key)).CleanUp?
    requires Leads(s, o, AtObj(s, o, Decided(o, s.objs[o], Resolved(key))))
    ensures Leads(s, o, AtObj(Pass(s, o, key), o, Idle))
  {
    var snap, ref := s.objs[o], RefStorage(o.ns, key);
    var pc := Decided(o, snap, Resolved(key));
    var m := Erased(s, o, Visited(s, o, pc.todo, pc.exclude));
    var clean := Cleaned(s, o, pc);
    var put := Put(snap, snap.(annotation := ref), clean.missed);
    CleanRun(s, o, pc);
    Then(s, o, AtObj(s, o, pc), AtObj(m, o, clean));
    GoalOne(m, o, snap, clean.missed, ref, ref);
    Then(s, o, AtObj(m, o, clean), AtObj(m, o, put));
    StoreRun(m, o, snap, put.next, clean.missed);
    Then(s, o, AtObj(m, o, put), AtObj(StoreObj(m, o, put.next), o, Idle));
  }

  lemma OpenApply(s: State, o: Key, snap: Obj, key: Key)
    requires Alone(s, o) && Ready(s, key)
    ensures var router := s.routers[key];
      Leads(AtObj(s, o, Applying(snap, key)), o, AtObj(s, o, ApplyingAt(snap, key, router, [], router.spec)))
  {
    var pc := Applying(snap, key);
    var locked := Opened(pc, s.routers[key]);
    Moved(s, o, pc, locked);
    FreeWhenAlone(s, o, pc, key);
    One(AtObj(s, o, pc), o, LockApply(o));
    ConnectRun(s, o, locked);
    Then(AtObj(s, o, pc), o, AtObj(s, o, locked), AtObj(s, o, AllConnected(locked)));
  }

  lemma AppliedOne(s: State, o: Key, snap: Obj, key: Key, router: Router)
    ensures Leads(AtObj(s, o, ApplyingAt(snap, key, router, [], [])), o,
      AtObj(s, o, Put(snap, snap.(applied := true, statusRef := RefStorage(o.ns, key)), {})))
  {
    var pc := ApplyingAt(snap, key, router, [], []);
    Moved(s, o, pc, Put(snap, snap.(applied := true, statusRef := RefStorage(o.ns, key)), {}));
    One(AtObj(s, o, pc), o, Applied(o));
  }

  lemma WritePass(s: State, o: Key, key: Key)
    requires Alone(s, o) && o in s.objs && !s.objs[o].deleting && Ready(s, key)
    requires Decide(o.ns, s.objs[o], Resolved(key)).Write?
    requires Leads(s, o, AtObj(s, o, Decided(o, s.objs[o], Resolved(key))))
    ensures Leads(s, o, AtObj(Pass(s, o, key), o, Idle))
  {
    var snap, router := s.objs[o], s.routers[key];
    var m := Written(s, o, Keys(router.spec), key);
    var next := snap.(applied := true, statusRef := RefStorage(o.ns, key));
    var open, done := ApplyingAt(snap, key, router, [], router.spec), ApplyingAt(snap, key, router, [], []);
    OpenApply(s, o, snap, key);
    Then(s, o, AtObj(s, o, Applying(snap, key)), AtObj(s, o, open));
    ApplyRun(s, o, open);
    Then(s, o, AtObj(s, o, open), AtObj(m, o, done));
    AppliedOne(m, o, snap, key, router);
    Then(s, o, AtObj(m, o, done), AtObj(m, o, Put(snap, next, {})));
    StoreRun(m, o, snap, next, {});
    Then(s, o, AtObj(m, o, Put(snap, next, {})), AtObj(StoreObj(m, o, next), o, Idle));
  }

  /* ---- Five passes suffice ---- */

  ghost function Passes(s: State, o: Key, key: Key, n: nat): (t: State)
    requires o in s.objs && !s.objs[o].deleting && key in s.routers
    ensures o in t.objs && !t.objs[o].deleting && t.objs[o].ready == s.objs[o].ready
    ensures t.routers == s.routers && t.secrets == s.secrets && t.opcs == s.opcs && t.rpcs == s.rpcs
    ensures t.objs[o].specRef == s.objs[o].specRef
  {
    if n == 0 then s else Pass(Passes(s, o, key, n - 1), o, key)
  }

  ghost function Union(ns: string, o: Obj, key: Key): string {
    Encode(TargetSet(o.annotation, [o.statusRef, RefStorage(ns, key)]))
  }

  /** How many passes must still come before the pass that writes to the devices. */
  ghost function Rank(ns: string, o: Obj, key: Key): nat {
    var ref := RefStorage(ns, key);
    (if o.finalizer then 0 else 1) +
    (if o.annotation == ref then 0 else if o.annotation == Union(ns, o, key) then 1 else 2) +
    (if o.statusRef == "" || o.statusRef == ref then 0 else 1)
  }

  /** Persisting the union makes it the stored value for good: reading it back adds nothing. */
  lemma UnionSettles(ns: string, o: Obj, key: Key)
    requires CleanStatus(o) && ValidKey(key)
    ensures Union(ns, o.(annotation := Union(ns, o, key)), key) == Union(ns, o, key)
  {
    var ref := RefStorage(ns, key);
    RefRoundTrip(ns, key);
    var extra := [o.statusRef, ref];
    var all := TargetSet(o.annotation, extra);
    DecodeClean(o.annotation);
    forall t | t in Tokens(extra) ensures Clean(t) {
      var p :| p in extra && TrimSpace(p) != [] && t == TrimSpace(p);
      TrimTrimmed(p);
    }
    EncodeRoundTrip(all);
    assert TargetSet(Encode(all), extra) == all;
  }

  /** The object a pass stores. */
  ghost function NextObj(ns: string, o: Obj, key: Key): Obj
    requires !o.deleting
  {
    match Decide(ns, o, Resolved(key))
    case Store(next) => next
    case CleanUp(_, _, _) => o.(annotation := RefStorage(ns, key))
    case Write(_) => o.(applied := true, statusRef := RefStorage(ns, key))
  }

  lemma PassObj(s: State, o: Key, key: Key)
    requires o in s.objs && !s.objs[o].deleting && key in s.routers
    ensures Pass(s, o, key).objs[o] == NextObj(o.ns, s.objs[o], key).(rv := s.clock)
  {
  }

  /** The five kinds of pass, by what they store. */
  lemma NextObjIs(ns: string, o: Obj, key: Key)
    requires !o.deleting && o.ready
    ensures var ref := RefStorage(ns, key);
      NextObj(ns, o, key) ==
        if !o.finalizer then o.(finalizer := true)
        else if o.annotation != ref && o.annotation != Union(ns, o, key) then o.(annotation := Union(ns, o, key))
        else if o.annotation != ref then o.(annotation := ref)
        else if o.statusRef != "" && o.statusRef != ref then o.(statusRef := "", applied := false)
        else o.(applied := true, statusRef := ref)
  {
  }

  /** `t` is closer to the applying pass than `o`, or both are there. */
  ghost predicate Closer(ns: string, o: Obj, t: Obj, key: Key) {
    && CleanStatus(t)
    && (Rank(ns, o, key) > 0 ==> Rank(ns, t, key) < Rank(ns, o, key))
    && (Rank(ns, o, key) == 0 ==> Rank(ns, t, key) == 0)
  }

  lemma FinalizerStep(ns: string, o: Obj, key: Key)
    requires CleanStatus(o) && !o.finalizer
    ensures Closer(ns, o, o.(finalizer := true), key)
  {
    assert Union(ns, o.(finalizer := true), key) == Union(ns, o, key);
  }

  lemma PersistStep(ns: string, o: Obj, key: Key)
    requires CleanStatus(o) && ValidKey(key) && o.annotation != RefStorage(ns, key) && o.annotation != Union(ns, o, key)
    ensures Closer(ns, o, o.(annotation := Union(ns, o, key)), key)
  {
    UnionSettles(ns, o, key);
  }

  lemma CompactStep(ns: string, o: Obj, key: Key)
    requires CleanStatus(o) && o.annotation != RefStorage(ns, key)
    ensures Closer(ns, o, o.(annotation := RefStorage(ns, key)), key)
  {
  }

  lemma StatusStep(ns: string, o: Obj, key: Key)
    requires CleanStatus(o) && ValidKey(key) && o.finalizer && o.annotation == RefStorage(ns, key)
    ensures o.statusRef != "" && o.statusRef != RefStorage(ns, key) ==>
      Closer(ns, o, o.(statusRef := "", applied := false), key)
    ensures o.statusRef == "" || o.statusRef == RefStorage(ns, key) ==>
      Closer(ns, o, o.(applied := true, statusRef := RefStorage(ns, key)), key)
  {
    RefRoundTrip(ns, key);
  }

  lemma RankStep(ns: string, o: Obj, key: Key)
    requires !o.deleting && o.ready && CleanStatus(o) && ValidKey(key)
    ensures Closer(ns, o, NextObj(ns, o, key), key)
  {
    NextObjIs(ns, o, key);
    if !o.finalizer {
      FinalizerStep(ns, o, key);
    } else if o.annotation != RefStorage(ns, key) {
      if o.annotation != Union(ns, o, key) { PersistStep(ns, o, key); } else { CompactStep(ns, o, key); }
    } else {
      StatusStep(ns, o, key);
    }
  }

  lemma RankDecreases(s: State, o: Key, key: Key)
    requires o in s.objs && !s.objs[o].deleting && s.objs[o].ready && key in s.routers
    requires CleanStatus(s.objs[o]) && ValidKey(key)
    ensures Closer(o.ns, s.objs[o], Pass(s, o, key).objs[o], key)
  {
    PassObj(s, o, key);
    RankStep(o.ns, s.objs[o], key);
    var next := NextObj(o.ns, s.objs[o], key);
    assert Union(o.ns, next.(rv := s.clock), key) == Union(o.ns, next, key);
    assert Rank(o.ns, next.(rv := s.clock), key) == Rank(o.ns, next, key);
  }

  lemma {:induction false} RankRunsOut(s: State, o: Key, key: Key, n: nat)
    requires o in s.objs && !s.objs[o].deleting && s.objs[o].ready && key in s.routers
    requires CleanStatus(s.objs[o]) && ValidKey(key)
    ensures var t := Passes(s, o, key, n);
      CleanStatus(t.objs[o]) && (Rank(o.ns, t.objs[o], key) + n <= 4 || Rank(o.ns, t.objs[o], key) == 0)
  {
    if n > 0 {
      RankRunsOut(s, o, key, n - 1);
      RankDecreases(Passes(s, o, key, n - 1), o, key);
    }
  }

  lemma IdleStaysAlone(p: State, o: Key)
    requires Alone(p, o)
    ensures Alone(AtObj(p, o, Idle), o) && ObjPcOf(AtObj(p, o, Idle), o).Idle?
  {
    var q := AtObj(p, o, Idle);
    assert forall x :: x != o ==> ObjPcOf(q, x) == ObjPcOf(p, x);
    assert forall r :: RouterPcOf(q, r) == RouterPcOf(p, r);
  }

  /** A pass from wherever the worker last stood idle. */
  lemma OneMorePass(p: State, o: Key, key: Key)
    requires Alone(p, o) && ValidKey(key) && o in p.objs && !p.objs[o].deleting && Ready(p, key)
    ensures Leads(AtObj(p, o, Idle), o, AtObj(Pass(p, o, key), o, Idle))
  {
    var q := AtObj(p, o, Idle);
    IdleStaysAlone(p, o);
    assert Ready(q, key);
    PassIsRun(q, o, key);
    PassIgnoresPc(p, o, key);
    Moved(Pass(p, o, key), o, Idle, Idle);
  }

  lemma SameReady(s: State, t: State, key: Key)
    requires Ready(s, key) && t.routers == s.routers && t.secrets == s.secrets
    ensures Ready(t, key)
  {
  }

  lemma AppendPass(s: State, o: Key, key: Key, p: State, q: State)
    requires Alone(s, o) && ValidKey(key) && Ready(s, key)
    requires p.opcs == s.opcs && p.rpcs == s.rpcs && p.routers == s.routers && p.secrets == s.secrets
    requires o in p.objs && !p.objs[o].deleting && q == Pass(p, o, key)
    requires Leads(AtObj(s, o, Idle), o, AtObj(p, o, Idle))
    ensures Leads(AtObj(s, o, Idle), o, AtObj(q, o, Idle))
  {
    StillAlone(s, o, p);
    SameReady(s, p, key);
    OneMorePass(p, o, key);
    Then(AtObj(s, o, Idle), o, AtObj(p, o, Idle), AtObj(q, o, Idle));
  }

  lemma {:induction false} PassesAreRuns(s: State, o: Key, key: Key, n: nat)
    requires Alone(s, o) && ObjPcOf(s, o).Idle? && ValidKey(key)
    requires o in s.objs && !s.objs[o].deleting && Ready(s, key)
    ensures Leads(AtObj(s, o, Idle), o, AtObj(Passes(s, o, key, n), o, Idle))
  {
    if n == 0 {
      Stays(AtObj(s, o, Idle), o);
    } else {
      PassesAreRuns(s, o, key, n - 1);
      AppendPass(s, o, key, Passes(s, o, key, n - 1), Passes(s, o, key, n));
    }
  }

  lemma VisitedIgnoresPc(s: State, o: Key, todo: set<string>, exclude: string)
    ensures Visited(AtObj(s, o, Idle), o, todo, exclude) == Visited(s, o, todo, exclude)
  {
    assert forall x :: VisitedFor(AtObj(s, o, Idle), o, x, exclude) == VisitedFor(s, o, x, exclude);
  }

  lemma StoreAt(s: State, o: Key, next: Obj)
    ensures StoreObj(AtObj(s, o, Idle), o, next) == AtObj(StoreObj(s, o, next), o, Idle)
  {
    assert Forgotten(AtObj(s, o, Idle), o, next) == Forgotten(s, o, next);
  }

  lemma WrittenAt(s: State, o: Key, eps: set<Ep>, r: Key)
    ensures Written(AtObj(s, o, Idle), o, eps, r) == AtObj(Written(s, o, eps, r), o, Idle)
  {
    assert forall e :: ListedAt(AtObj(s, o, Idle), r, e) <==> ListedAt(s, r, e);
    var a, b := Written(AtObj(s, o, Idle), o, eps, r), AtObj(Written(s, o, eps, r), o, Idle);
    assert a.dev == b.dev;
    assert a.orphans == b.orphans;
  }

  lemma PassIgnoresPc(s: State, o: Key, key: Key)
    requires o in s.objs && !s.objs[o].deleting && key in s.routers
    ensures Pass(AtObj(s, o, Idle), o, key) == AtObj(Pass(s, o, key), o, Idle)
  {
    match Decide(o.ns, s.objs[o], Resolved(key)) {
      case Store(next) => StoreAt(s, o, next);
      case CleanUp(todo, exclude, _) =>
        VisitedIgnoresPc(s, o, todo, exclude);
        StoreAt(Erased(s, o, Visited(s, o, todo, exclude)), o, s.objs[o].(annotation := RefStorage(o.ns, key)));
      case Write(_) =>
        var eps := Keys(s.routers[key].spec);
        WrittenAt(s, o, eps, key);
        StoreAt(Written(s, o, eps, key), o, s.objs[o].(applied := true, statusRef := RefStorage(o.ns, key)));
    }
  }

  /**
    From any state, if the reference resolves to an active router and no call fails, five passes of
    the worker end with the object applied: finalizer present, annotation and status holding exactly
    the resolved reference, and an entry on every endpoint of that router.
   */
  lemma AppliedWithinFivePasses(s: State, o: Key, key: Key)
    requires o in s.objs && !s.objs[o].deleting && s.objs[o].ready && key in s.routers
    requires CleanStatus(s.objs[o]) && ValidKey(key)
    ensures var t := Passes(s, o, key, 5);
      && t.objs[o].finalizer && t.objs[o].applied
      && t.objs[o].annotation == t.objs[o].statusRef == RefStorage(o.ns, key)
      && forall e :: e in Keys(s.routers[key].spec) ==> Spot(o, e) in t.dev && t.dev[Spot(o, e)] == key
  {
    RankRunsOut(s, o, key, 4);
    var m := Passes(s, o, key, 4);
    assert Passes(s, o, key, 5) == Pass(m, o, key);
    assert Decide(o.ns, m.objs[o], Resolved(key)) == Write(key);
    forall e | e in Keys(s.routers[key].spec)
      ensures Spot(o, e) in Pass(m, o, key).dev && Pass(m, o, key).dev[Spot(o, e)] == key
    {
      assert Spot(o, e) in set x | x in Keys(s.routers[key].spec) :: Spot(o, x);
    }
  }

  /** Once applied, the recorded entries of the object are on the endpoints of its router and nowhere else. */
  lemma AppliedExactly(s: State, o: Key, key: Key, sp: Spot)
    requires Inv(s) && o in s.objs && ValidKey(key) && key in s.routers && Active(s.routers[key])
    requires s.objs[o].annotation == RefStorage(o.ns, key) && Live(s, sp) && sp.obj == o
    ensures s.dev[sp] == key && sp.ep in Keys(s.routers[key].spec)
  {
    assert Tracked(s, sp);
    RefRoundTrip(o.ns, key);
    SingleRoundTrip(RefStorage(o.ns, key));
    RefRoundTrip(o.ns, s.dev[sp]);
  }
}
