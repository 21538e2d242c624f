/**
  Arbitration between records that claim the same thing on one router: one hostname, or one public
  IP, protocol and port (internal/controller/router_controller.go).
 */
module Claims {
  import opened Text

  /** generatedClaimActor: the owner a record acts for; `direct` for a record without a controller. */
  datatype Actor = Actor(key: string, direct: bool)

  datatype Condition = Nothing | Ready | Failed | YieldedTo(winner: string)

  /** The routers a record claims on, or a failure to resolve its references. */
  datatype Routers = Known(keys: set<string>) | Unknown

  /** What the arbitration reads of another record. */
  datatype Claim = Claim(mine: bool, actor: Actor, routers: Routers, name: string, applied: bool, condition: Condition)

  /** The answer to listing the records of one kind. */
  datatype Listing = Listed(records: seq<Claim>) | Unlisted

  /** The answer to looking up a generated child by its name; `mine` if the owner controls it. */
  datatype Child = Absent | Unreadable | Found(mine: bool, actor: Actor)

  /** The candidates of one kind: the children they would be stored in, and the names they claim. */
  datatype Wanted = Wanted(children: seq<Child>, names: seq<string>, listing: Listing)

  datatype Verdict = Clear | Waiting(other: string) | Collision(other: string) | Error

  /** generatedClaimHasYieldedTo. */
  predicate HasYieldedTo(c: Claim, winner: string) {
    !c.applied && c.condition == YieldedTo(winner)
  }

  /** generatedOwnershipConflict. */
  function Conflict(me: Actor, other: Actor, ownerHasClaim: bool): Verdict {
    if me.direct != other.direct then
      if me.direct then Waiting(other.key) else Collision(other.key)
    else if Less(me.key, other.key) && ownerHasClaim then Waiting(other.key)
    else Collision(other.key)
  }

  /** `a` has priority over `b`: direct before generated, then the smaller key. */
  predicate Beats(a: Actor, b: Actor) {
    if a.direct != b.direct then a.direct else Less(a.key, b.key)
  }

  /** Priority is a strict total order on actors with different keys. */
  lemma BeatsTotal(a: Actor, b: Actor)
    requires a.key != b.key
    ensures Beats(a, b) <==> !Beats(b, a)
  {
    LeqTotal(a.key, b.key);
  }

  lemma BeatsTransitive(a: Actor, b: Actor, c: Actor)
    requires Beats(a, b) && Beats(b, c)
    ensures Beats(a, c)
  {
    if a.direct == b.direct == c.direct {
      LeqTransitive(a.key, b.key, c.key);
      LeqTotal(a.key, b.key);
    }
  }

  /** An owner that has its own record waits for exactly the actors it has priority over. */
  lemma ConflictByPriority(me: Actor, other: Actor)
    requires me.key != other.key
    ensures Conflict(me, other, true) == if Beats(me, other) then Waiting(other.key) else Collision(other.key)
  {
    BeatsTotal(me, other);
  }

  /** The record claims one of the names on the router. */
  predicate Contends(c: Claim, router: string, names: seq<string>) {
    c.routers.Known? && router in c.routers.keys && c.name in names
  }

  /** A record that matters to `me` and whose routers cannot be resolved. */
  predicate Unresolved(c: Claim, me: Actor) {
    c.routers.Unknown? && (c.mine || !HasYieldedTo(c, me.key))
  }

  /** Another owner's record that stands in the way of `me`. */
  predicate Blocks(c: Claim, me: Actor, router: string, names: seq<string>) {
    !c.mine && !HasYieldedTo(c, me.key) && Contends(c, router, names)
  }

  /** The owner already has a record of its own for one of the names. */
  predicate HasOwnClaim(records: seq<Claim>, router: string, names: seq<string>) {
    exists j :: 0 <= j < |records| && records[j].mine && Contends(records[j], router, names)
  }

  /** Some record of the owner has routers that cannot be resolved. */
  predicate OwnUnresolved(records: seq<Claim>) {
    exists j :: 0 <= j < |records| && records[j].mine && records[j].routers.Unknown?
  }

  /** The second loop over the records of one kind: the first record that matters decides. */
  function RecordVerdict(records: seq<Claim>, me: Actor, router: string, names: seq<string>, hasClaim: bool): Verdict {
    if records == [] then Clear
    else if Unresolved(records[0], me) then Error
    else if Blocks(records[0], me, router, names) then Conflict(me, records[0].actor, hasClaim)
    else RecordVerdict(records[1..], me, router, names, hasClaim)
  }

  function ListVerdict(w: Wanted, me: Actor, router: string): Verdict {
    if w.listing.Unlisted? || OwnUnresolved(w.listing.records) then Error
    else RecordVerdict(w.listing.records, me, router, w.names, HasOwnClaim(w.listing.records, router, w.names))
  }

  function ChildVerdict(children: seq<Child>, me: Actor): Verdict {
    if children == [] then Clear
    else match children[0]
      case Absent => ChildVerdict(children[1..], me)
      case Unreadable => Error
      case Found(mine, actor) => if mine then ChildVerdict(children[1..], me) else Conflict(me, actor, false)
  }

  /** The children of both kinds, then the DNS records, then the port forwards. */
  function Arbitrate(dns: Wanted, forwards: Wanted, me: Actor, router: string): Verdict {
    if dns.names == [] && forwards.names == [] then Clear
    else if !ChildVerdict(dns.children, me).Clear? then ChildVerdict(dns.children, me)
    else if !ChildVerdict(forwards.children, me).Clear? then ChildVerdict(forwards.children, me)
    else if !ListVerdict(dns, me, router).Clear? then ListVerdict(dns, me, router)
    else ListVerdict(forwards, me, router)
  }

  lemma {:induction false} RecordsStep(
    records: seq<Claim>, i: nat, me: Actor, router: string, names: seq<string>, hasClaim: bool)
    requires i < |records|
    ensures RecordVerdict(records[i..], me, router, names, hasClaim) ==
      if Unresolved(records[i], me) then Error
      else if Blocks(records[i], me, router, names) then Conflict(me, records[i].actor, hasClaim)
      else RecordVerdict(records[i + 1..], me, router, names, hasClaim)
  {
    assert records[i..][0] == records[i] && records[i..][1..] == records[i + 1..];
  }

  /** The two loops over the records of one kind. */
  method ScanRecords(w: Wanted, me: Actor, router: string) returns (v: Verdict)
    ensures v == ListVerdict(w, me, router)
  {
    if w.listing.Unlisted? {
      return Error;
    }
    var records := w.listing.records;
    var ownerHasClaim := false;
    for i := 0 to |records|
      invariant ownerHasClaim <==> HasOwnClaim(records[..i], router, w.names)
      invariant forall k :: 0 <= k < i && records[k].mine ==> records[k].routers.Known?
    {
      assert forall j :: 0 <= j < i ==> records[..i + 1][j] == records[..i][j];
      assert records[..i + 1][i] == records[i];
      if !records[i].mine {
        continue;
      }
      if records[i].routers.Unknown? {
        return Error;
      }
      if router in records[i].routers.keys && records[i].name in w.names {
        ownerHasClaim := true;
      }
    }
    assert records[..|records|] == records;
    for i := 0 to |records|
      invariant RecordVerdict(records, me, router, w.names, ownerHasClaim) ==
        RecordVerdict(records[i..], me, router, w.names, ownerHasClaim)
    {
      RecordsStep(records, i, me, router, w.names, ownerHasClaim);
      var c := records[i];
      if c.mine || HasYieldedTo(c, me.key) {
        continue;
      }
      if c.routers.Unknown? {
        return Error;
      }
      if router in c.routers.keys && c.name in w.names {
        return Conflict(me, c.actor, ownerHasClaim);
      }
    }
    v := Clear;
  }

  /** The loop over the children of one kind. */
  method CheckChildren(w: Wanted, me: Actor) returns (v: Verdict)
    ensures v == ChildVerdict(w.children, me)
  {
    for i := 0 to |w.children|
      invariant ChildVerdict(w.children, me) == ChildVerdict(w.children[i..], me)
    {
      assert w.children[i..][0] == w.children[i] && w.children[i..][1..] == w.children[i + 1..];
      match w.children[i]
      case Absent =>
      case Unreadable => return Error;
      case Found(mine, actor) =>
        if !mine {
          return Conflict(me, actor, false);
        }
    }
    v := Clear;
  }

  /**
    preflightGeneratedChildClaims.  It clears the candidates exactly when nothing stands in the way, and a conflict
    follows the rules of Judged.
   */
  method Preflight(dns: Wanted, forwards: Wanted, me: Actor, router: string) returns (v: Verdict)
    ensures v == Arbitrate(dns, forwards, me, router)
    ensures v.Clear? <==>
      || (dns.names == [] && forwards.names == [])
      || (ChildrenFree(dns) && ChildrenFree(forwards) && Free(dns, me, router) && Free(forwards, me, router))
    ensures v.Waiting? || v.Collision? ==>
      || ChildJudged(v, dns, me) || ChildJudged(v, forwards, me)
      || RecordJudged(v, dns, me, router) || RecordJudged(v, forwards, me, router)
    ensures v.Error? ==> ReadFails(dns, me) || ReadFails(forwards, me)
  {
    ClearExactly(dns, forwards, me, router);
    ConflictsAreJudged(dns, forwards, me, router);
    ErrorsAreReal(dns, forwards, me, router);
    if |dns.names| == 0 && |forwards.names| == 0 {
      return Clear;
    }
    v := CheckChildren(dns, me);
    if !v.Clear? { return; }
    v := CheckChildren(forwards, me);
    if !v.Clear? { return; }
    v := ScanRecords(dns, me, router);
    if !v.Clear? { return; }
    v := ScanRecords(forwards, me, router);
  }

  /* ---- What the verdict means ---- */

  /** The children are missing or the owner's own. */
  predicate ChildrenFree(w: Wanted) {
    forall c :: c in w.children ==> c.Absent? || (c.Found? && c.mine)
  }

  /** Another owner's record that has not given way: it is Applied, or it names somebody else or nobody as the winner. */
  predicate Stands(c: Claim, me: Actor) {
    !c.mine && (c.applied || c.condition != YieldedTo(me.key))
  }

  /** The records can be read, and none that stands claims one of the names on the router. */
  predicate Free(w: Wanted, me: Actor, router: string) {
    w.listing.Listed? &&
    forall c :: c in w.listing.records && (c.mine || Stands(c, me)) ==>
      c.routers.Known? && (c.mine || router !in c.routers.keys || c.name !in w.names)
  }

  /**
    The rules between `me` and `other`, who has what `me` wants: a direct owner waits for a generated one, which
    in turn collides with it; among equals the smaller key waits, if it has a claim, and everyone else collides.
   */
  predicate Judged(v: Verdict, me: Actor, other: Actor, hasClaim: bool) {
    && (v.Waiting? || v.Collision?) && v.other == other.key
    && (me.direct && !other.direct ==> v.Waiting?)
    && (!me.direct && other.direct ==> v.Collision?)
    && (me.direct == other.direct && !hasClaim ==> v.Collision?)
    && (me.direct == other.direct && hasClaim ==> (v.Waiting? <==> me.key != other.key && Leq(me.key, other.key)))
  }

  /** A child of somebody else is in the way; a claim of the owner's own does not count against it. */
  predicate ChildJudged(v: Verdict, w: Wanted, me: Actor) {
    exists c :: c in w.children && c.Found? && !c.mine && Judged(v, me, c.actor, false)
  }

  /** The first record that stands and claims one of the names on the router is in the way. */
  predicate RecordJudged(v: Verdict, w: Wanted, me: Actor, router: string) {
    w.listing.Listed? &&
    exists i :: 0 <= i < |w.listing.records| && FirstInTheWay(w, me, router, i) &&
      Judged(v, me, w.listing.records[i].actor, HasClaimOf(w, router))
  }

  predicate FirstInTheWay(w: Wanted, me: Actor, router: string, i: int)
    requires w.listing.Listed? && 0 <= i < |w.listing.records|
  {
    var c := w.listing.records[i];
    && Stands(c, me) && c.routers.Known? && router in c.routers.keys && c.name in w.names
    && forall k :: 0 <= k < i && Stands(w.listing.records[k], me) ==>
         var d := w.listing.records[k]; d.routers.Known? && (router !in d.routers.keys || d.name !in w.names)
  }

  /** The owner has a record of its own for one of the names on the router. */
  predicate HasClaimOf(w: Wanted, router: string)
    requires w.listing.Listed?
  {
    exists c :: c in w.listing.records && c.mine && c.routers.Known? && router in c.routers.keys && c.name in w.names
  }

  /** A child or the list cannot be read, or the routers of a record that matters cannot be resolved. */
  predicate ReadFails(w: Wanted, me: Actor) {
    || Unreadable in w.children
    || w.listing.Unlisted?
    || exists c :: c in w.listing.records && c.routers.Unknown? && (c.mine || Stands(c, me))
  }

  lemma ConflictIsJudged(me: Actor, other: Actor, hasClaim: bool)
    ensures Judged(Conflict(me, other, hasClaim), me, other, hasClaim)
  {
  }

  lemma OwnClaim(w: Wanted, router: string)
    requires w.listing.Listed?
    ensures HasOwnClaim(w.listing.records, router, w.names) <==> HasClaimOf(w, router)
  {
    if HasClaimOf(w, router) {
      var c :| c in w.listing.records && c.mine && c.routers.Known? && router in c.routers.keys && c.name in w.names;
      var j :| 0 <= j < |w.listing.records| && w.listing.records[j] == c;
      assert Contends(w.listing.records[j], router, w.names);
    }
    if HasOwnClaim(w.listing.records, router, w.names) {
      var j :| 0 <= j < |w.listing.records| && w.listing.records[j].mine && Contends(w.listing.records[j], router, w.names);
      assert w.listing.records[j] in w.listing.records;
    }
  }

  lemma {:induction false} RecordsClear(records: seq<Claim>, me: Actor, router: string, names: seq<string>, hasClaim: bool)
    ensures RecordVerdict(records, me, router, names, hasClaim).Clear? <==>
      forall c :: c in records ==> !Unresolved(c, me) && !Blocks(c, me, router, names)
  {
    if records != [] {
      assert records == [records[0]] + records[1..];
      RecordsClear(records[1..], me, router, names, hasClaim);
    }
  }

  lemma ListClear(w: Wanted, me: Actor, router: string)
    ensures ListVerdict(w, me, router).Clear? <==> Free(w, me, router)
  {
    if w.listing.Listed? {
      var records := w.listing.records;
      RecordsClear(records, me, router, w.names, HasOwnClaim(records, router, w.names));
      if OwnUnresolved(records) {
        var j :| 0 <= j < |records| && records[j].mine && records[j].routers.Unknown?;
        assert records[j] in records;
      }
      if Free(w, me, router) {
        forall c | c in records ensures !Unresolved(c, me) && !Blocks(c, me, router, w.names) {}
      }
    }
  }

  lemma {:induction false} ChildrenClear(children: seq<Child>, me: Actor)
    ensures ChildVerdict(children, me).Clear? <==> forall c :: c in children ==> c.Absent? || (c.Found? && c.mine)
  {
    if children != [] {
      assert children == [children[0]] + children[1..];
      ChildrenClear(children[1..], me);
    }
  }

  lemma ClearExactly(dns: Wanted, forwards: Wanted, me: Actor, router: string)
    ensures Arbitrate(dns, forwards, me, router).Clear? <==>
      || (dns.names == [] && forwards.names == [])
      || (ChildrenFree(dns) && ChildrenFree(forwards) && Free(dns, me, router) && Free(forwards, me, router))
  {
    ChildrenClear(dns.children, me);
    ChildrenClear(forwards.children, me);
    ListClear(dns, me, router);
    ListClear(forwards, me, router);
  }

  lemma {:induction false} ChildConflict(w: Wanted, children: seq<Child>, me: Actor)
    requires forall c :: c in children ==> c in w.children
    requires var v := ChildVerdict(children, me); v.Waiting? || v.Collision?
    ensures ChildJudged(ChildVerdict(children, me), w, me)
    decreases |children|
  {
    var c := children[0];
    assert c in children;
    if c.Found? && !c.mine {
      ConflictIsJudged(me, c.actor, false);
    } else {
      ChildConflict(w, children[1..], me);
    }
  }

  lemma {:induction false} RecordConflict(records: seq<Claim>, me: Actor, router: string, names: seq<string>, hasClaim: bool)
      returns (i: nat)
    requires var v := RecordVerdict(records, me, router, names, hasClaim); v.Waiting? || v.Collision?
    ensures i < |records| && Blocks(records[i], me, router, names)
    ensures forall k :: 0 <= k < i ==> !Unresolved(records[k], me) && !Blocks(records[k], me, router, names)
    ensures RecordVerdict(records, me, router, names, hasClaim) == Conflict(me, records[i].actor, hasClaim)
  {
    if Blocks(records[0], me, router, names) {
      i := 0;
    } else {
      var m := RecordConflict(records[1..], me, router, names, hasClaim);
      i := m + 1;
      assert forall k :: 0 < k <= i ==> records[k] == records[1..][k - 1];
    }
  }

  lemma ListConflict(w: Wanted, me: Actor, router: string)
    requires var v := ListVerdict(w, me, router); v.Waiting? || v.Collision?
    ensures RecordJudged(ListVerdict(w, me, router), w, me, router)
  {
    var records := w.listing.records;
    var hasClaim := HasOwnClaim(records, router, w.names);
    OwnClaim(w, router);
    var i := RecordConflict(records, me, router, w.names, hasClaim);
    ConflictIsJudged(me, records[i].actor, hasClaim);
    assert FirstInTheWay(w, me, router, i);
  }

  lemma ConflictsAreJudged(dns: Wanted, forwards: Wanted, me: Actor, router: string)
    ensures var v := Arbitrate(dns, forwards, me, router);
      v.Waiting? || v.Collision? ==>
        || ChildJudged(v, dns, me) || ChildJudged(v, forwards, me)
        || RecordJudged(v, dns, me, router) || RecordJudged(v, forwards, me, router)
  {
    var v := Arbitrate(dns, forwards, me, router);
    if v.Waiting? || v.Collision? {
      if !ChildVerdict(dns.children, me).Clear? {
        ChildConflict(dns, dns.children, me);
      } else if !ChildVerdict(forwards.children, me).Clear? {
        ChildConflict(forwards, forwards.children, me);
      } else if !ListVerdict(dns, me, router).Clear? {
        ListConflict(dns, me, router);
      } else {
        ListConflict(forwards, me, router);
      }
    }
  }

  lemma {:induction false} ChildError(children: seq<Child>, me: Actor)
    requires ChildVerdict(children, me).Error?
    ensures Unreadable in children
  {
    if !children[0].Unreadable? { ChildError(children[1..], me); }
  }

  lemma {:induction false} RecordError(records: seq<Claim>, me: Actor, router: string, names: seq<string>, hasClaim: bool)
    requires RecordVerdict(records, me, router, names, hasClaim).Error?
    ensures exists c :: c in records && Unresolved(c, me)
  {
    if Unresolved(records[0], me) {
      assert records[0] in records;
    } else {
      RecordError(records[1..], me, router, names, hasClaim);
      var c :| c in records[1..] && Unresolved(c, me);
      assert c in records;
    }
  }

  lemma ListError(w: Wanted, me: Actor, router: string)
    requires ListVerdict(w, me, router).Error?
    ensures ReadFails(w, me)
  {
    if w.listing.Listed? {
      var records := w.listing.records;
      if OwnUnresolved(records) {
        var j :| 0 <= j < |records| && records[j].mine && records[j].routers.Unknown?;
        assert records[j] in records;
      } else {
        RecordError(records, me, router, w.names, HasOwnClaim(records, router, w.names));
        var c :| c in records && Unresolved(c, me);
        assert c.routers.Unknown? && (c.mine || Stands(c, me));
      }
    }
  }

  lemma ErrorsAreReal(dns: Wanted, forwards: Wanted, me: Actor, router: string)
    ensures Arbitrate(dns, forwards, me, router).Error? ==> ReadFails(dns, me) || ReadFails(forwards, me)
  {
    if Arbitrate(dns, forwards, me, router).Error? {
      if !ChildVerdict(dns.children, me).Clear? {
        ChildError(dns.children, me);
      } else if !ChildVerdict(forwards.children, me).Clear? {
        ChildError(forwards.children, me);
      } else if !ListVerdict(dns, me, router).Clear? {
        ListError(dns, me, router);
      } else {
        ListError(forwards, me, router);
      }
    }
  }

  /* ---- The arbitration over whole runs, for one router and one claimed name ---- */

  /** A contending record: its actor class, its status, and whether its entry is on the device. */
  datatype Rec = Rec(direct: bool, applied: bool, condition: Condition, entry: bool)

  /** Where the worker of a record stands.  A worker in a fenced state holds the router's claim fence. */
  datatype Pc =
    | Idle
    | Fenced
    | Cleared
    | Written
    | Broken
    | Colliding(winner: string)
    | Yielding(winner: string)

  predicate Holds(pc: Pc) {
    pc.Fenced? || pc.Cleared? || pc.Written? || pc.Broken?
  }

  /**
    Contenders by actor key; `used` remembers every actor that ever joined, and `left` those whose record is gone
    while their entry is still on the device.
   */
  datatype State = State(recs: map<string, Rec>, pcs: map<string, Pc>, used: map<string, bool>, left: set<string>)

  predicate OnDevice(s: State, k: string) {
    k in s.left || (k in s.recs && s.recs[k].entry)
  }

  function PcOf(s: State, k: string): Pc {
    if k in s.pcs then s.pcs[k] else Idle
  }

  function ActorOf(s: State, k: string): Actor
    requires k in s.used
  {
    Actor(k, s.used[k])
  }

  predicate Init(s: State) {
    s == State(map[], map[], map[], {})
  }

  ghost predicate FenceFree(s: State) {
    forall k :: !Holds(PcOf(s, k))
  }

  /** Every other contender has yielded to `k`. */
  ghost predicate AllYielded(s: State, k: string) {
    forall x :: x in s.recs && x != k ==> !s.recs[x].applied && s.recs[x].condition == YieldedTo(k)
  }

  datatype Step =
    | Join(k: string, direct: bool)
    | Withdraw(k: string)
    | Leave(k: string)
    | Trouble(k: string)
    | Lock(k: string)
    | Check(k: string, other: string)
    | Abort(k: string)
    | Write(k: string, failed: bool)
    | BreakWrite(k: string)
    | StoreApplied(k: string)
    | StoreFailed(k: string)
    | CleanUp(k: string)
    | CleanUpMisses(k: string)
    | StoreYield(k: string)

  ghost predicate Enabled(s: State, step: Step) {
    match step
    case Join(k, _) => k !in s.used
    case Withdraw(k) => k in s.recs && PcOf(s, k).Idle?
    case Leave(k) => k in s.recs && PcOf(s, k).Idle?
    case Trouble(k) => k in s.recs && PcOf(s, k).Idle?
    case Lock(k) => k in s.recs && PcOf(s, k).Idle? && FenceFree(s)
    case Check(k, other) =>
      k in s.recs && PcOf(s, k).Fenced? &&
      (AllYielded(s, k) ||
       (other in s.recs && other in s.used && k in s.used && other != k &&
        !(!s.recs[other].applied && s.recs[other].condition == YieldedTo(k))))
    case Abort(k) => !PcOf(s, k).Idle?
    case Write(k, _) => k in s.recs && PcOf(s, k).Cleared?
    case BreakWrite(k) => k in s.recs && PcOf(s, k).Cleared?
    case StoreApplied(k) => k in s.recs && PcOf(s, k).Written?
    case StoreFailed(k) => k in s.recs && PcOf(s, k).Broken?
    case CleanUp(k) => k in s.recs && PcOf(s, k).Colliding?
    case CleanUpMisses(k) => k in s.recs && PcOf(s, k).Colliding?
    case StoreYield(k) => k in s.recs && PcOf(s, k).Yielding?
  }

  function At(s: State, k: string, pc: Pc): State {
    s.(pcs := s.pcs[k := pc])
  }

  function Put(s: State, k: string, r: Rec): State {
    s.(recs := s.recs[k := r])
  }

  ghost function Next(s: State, step: Step): State
    requires Enabled(s, step)
  {
    match step
    // records appear under fresh UIDs and disappear once a cleanup has returned without an error
    case Join(k, direct) => s.(recs := s.recs[k := Rec(direct, false, Nothing, false)], used := s.used[k := direct])
    case Withdraw(k) => Put(s, k, s.recs[k].(entry := false))
    case Leave(k) => s.(recs := s.recs - {k}, left := if s.recs[k].entry then s.left + {k} else s.left)
    // any other failure of a pass, reported in the status
    case Trouble(k) => Put(s, k, s.recs[k].(applied := false, condition := Failed))
    // acquireGeneratedChildClaims
    case Lock(k) => At(s, k, Fenced)
    case Check(k, other) =>
      if AllYielded(s, k) then At(s, k, Cleared)
      else At(s, k, match Conflict(ActorOf(s, k), ActorOf(s, other), true)
                    case Collision(w) => Colliding(w)
                    case _ => Idle)
    case Abort(k) => At(s, k, Idle)
    // the device writes, and the status written before the claim fence is released
    case Write(k, failed) => At(Put(s, k, s.recs[k].(entry := true)), k, if failed then Broken else Written)
    case BreakWrite(k) => At(s, k, Broken)
    case StoreApplied(k) => At(Put(s, k, s.recs[k].(applied := true, condition := Ready)), k, Idle)
    case StoreFailed(k) => At(Put(s, k, s.recs[k].(applied := false, condition := Failed)), k, Idle)
    // a collision: clean up, then report whom the record yielded to; a cleanup may fail, or take a missing
    // Secret for a missing router, and leave the entry
    case CleanUp(k) => At(Put(s, k, s.recs[k].(entry := false)), k, Yielding(PcOf(s, k).winner))
    case CleanUpMisses(k) => At(s, k, Yielding(PcOf(s, k).winner))
    case StoreYield(k) =>
      At(Put(s, k, s.recs[k].(applied := false, condition := YieldedTo(PcOf(s, k).winner))), k, Idle)
  }

  /** What the arbitration for `k` reads of the contenders `ks`, each claiming `name` on `router`. */
  function Seen(s: State, k: string, ks: seq<string>, router: string, name: string): seq<Claim>
    requires forall x :: x in ks ==> x in s.recs && x in s.used
  {
    seq(|ks|, i requires 0 <= i < |ks| =>
      var r := s.recs[ks[i]];
      Claim(ks[i] == k, ActorOf(s, ks[i]), Known({router}), name, r.applied, r.condition))
  }

  /** The arbitration step of a run is what the two loops say about the contenders, in whatever order they are listed. */
  lemma CheckIsListVerdict(s: State, k: string, ks: seq<string>, router: string, name: string)
    requires k in s.recs && k in s.used && (forall x :: x in ks <==> x in s.recs) && s.recs.Keys <= s.used.Keys
    ensures var v := ListVerdict(Wanted([], [name], Listed(Seen(s, k, ks, router, name))), ActorOf(s, k), router);
      && (v.Clear? <==> AllYielded(s, k))
      && (!v.Clear? ==>
            exists other :: other in s.recs && other != k && (s.recs[other].applied || s.recs[other].condition != YieldedTo(k)) &&
              v == Conflict(ActorOf(s, k), ActorOf(s, other), true))
  {
    var records := Seen(s, k, ks, router, name);
    var me := ActorOf(s, k);
    var j :| 0 <= j < |ks| && ks[j] == k;
    assert records[j].mine && Contends(records[j], router, [name]);
    assert HasOwnClaim(records, router, [name]);
    var v := RecordVerdict(records, me, router, [name], true);
    RecordsClear(records, me, router, [name], true);
    if v.Error? { RecordError(records, me, router, [name], true); }
    if v.Waiting? || v.Collision? {
      var i := RecordConflict(records, me, router, [name], true);
      assert ks[i] in s.recs;
    }
    if v.Clear? {
      forall x | x in s.recs && x != k ensures !s.recs[x].applied && s.recs[x].condition == YieldedTo(k) {
        var i :| 0 <= i < |ks| && ks[i] == x;
        assert records[i] in records;
      }
    }
    if AllYielded(s, k) {
      forall c | c in records ensures !Unresolved(c, me) && !Blocks(c, me, router, [name]) {
        var i :| 0 <= i < |ks| && records[i] == c;
        assert ks[i] in s.recs;
      }
    }
  }

  ghost predicate IsRun(s: State, steps: seq<Step>)
    decreases |steps|
  {
    steps == [] || (Enabled(s, steps[0]) && IsRun(Next(s, steps[0]), steps[1..]))
  }

  ghost function After(s: State, steps: seq<Step>): State
    requires IsRun(s, steps)
    decreases |steps|
  {
    if steps == [] then s else After(Next(s, steps[0]), steps[1..])
  }

  /* ---- At most one contender is ever Applied ---- */

  ghost predicate OneHolder(s: State) {
    forall j, k :: j != k && Holds(PcOf(s, j)) ==> !Holds(PcOf(s, k))
  }

  predicate Winning(pc: Pc) {
    pc.Cleared? || pc.Written?
  }

  ghost predicate StatusOk(s: State) {
    && s.recs.Keys <= s.used.Keys && OneHolder(s)
    && (forall k, x :: Winning(PcOf(s, k)) && x in s.recs && x != k ==> !s.recs[x].applied)
    && (forall x, y :: x in s.recs && y in s.recs && x != y && s.recs[x].applied ==> !s.recs[y].applied)
  }

  /** Only the record a step names changes; what the step can do to it. */
  lemma StepEffect(s: State, step: Step)
    requires Enabled(s, step)
    ensures var t, k := Next(s, step), step.k;
      && (forall j :: j != k ==> PcOf(t, j) == PcOf(s, j))
      && (forall x :: x != k ==> (x in t.recs <==> x in s.recs) && (x in t.recs ==> t.recs[x] == s.recs[x]))
      && (Holds(PcOf(t, k)) ==> Holds(PcOf(s, k)) || FenceFree(s))
      && (Winning(PcOf(t, k)) ==> Winning(PcOf(s, k)) || AllYielded(s, k))
      && (k in t.recs && t.recs[k].applied ==> PcOf(s, k).Written? || (k in s.recs && s.recs[k].applied))
      && (k in t.recs ==> k in s.recs || k !in s.used)
  {
  }

  lemma UsedGrows(s: State, step: Step)
    requires Enabled(s, step)
    ensures forall x :: x in s.used ==> x in Next(s, step).used && Next(s, step).used[x] == s.used[x]
    ensures s.recs.Keys <= s.used.Keys ==> Next(s, step).recs.Keys <= Next(s, step).used.Keys
  {
  }

  lemma StatusStep(s: State, step: Step)
    requires StatusOk(s) && Enabled(s, step)
    ensures StatusOk(Next(s, step))
  {
    StepEffect(s, step);
    UsedGrows(s, step);
  }

  lemma {:induction false} StatusRun(s: State, steps: seq<Step>)
    requires StatusOk(s) && IsRun(s, steps)
    ensures StatusOk(After(s, steps))
    decreases |steps|
  {
    if steps != [] {
      StatusStep(s, steps[0]);
      StatusRun(Next(s, steps[0]), steps[1..]);
    }
  }

  /** Over every run, whatever fails, no two contenders for the same claim are Applied at once. */
  lemma OneApplied(s: State, steps: seq<Step>, x: string, y: string)
    requires Init(s) && IsRun(s, steps)
    requires var t := After(s, steps); x in t.recs && y in t.recs && t.recs[x].applied && t.recs[y].applied
    ensures x == y
  {
    assert forall k :: PcOf(s, k) == Idle;
    StatusRun(s, steps);
  }

  /* ---- At most one contender has its entry on the device ---- */

  /** The winner named by a yield is an actor that joined and has priority. */
  ghost predicate Stronger(s: State, w: string, x: string) {
    w in s.used && x in s.used && w != x && Beats(ActorOf(s, w), ActorOf(s, x))
  }

  ghost predicate PcYields(s: State, k: string) {
    var pc := PcOf(s, k);
    && (pc.Colliding? || pc.Yielding? ==> Stronger(s, pc.winner, k))
    && (!pc.Idle? ==> k in s.recs)
  }

  ghost predicate RecYields(s: State, k: string)
    requires k in s.recs
  {
    var c := s.recs[k].condition;
    && (c.YieldedTo? ==> Stronger(s, c.winner, k))
    && (c.YieldedTo? && (s.recs[k].entry || Winning(PcOf(s, k))) ==> c.winner !in s.recs)
  }

  ghost predicate DeviceOk(s: State) {
    && StatusOk(s) && s.left == {}
    && (forall k :: PcYields(s, k))
    && (forall k :: k in s.recs ==> RecYields(s, k))
    && (forall k, x :: Winning(PcOf(s, k)) && x in s.recs && x != k ==> !s.recs[x].entry)
    && (forall x, y :: x in s.recs && y in s.recs && x != y && s.recs[x].entry ==> !s.recs[y].entry)
  }

  /** Passing the check: nobody else has an entry, and whoever `k` once yielded to has left. */
  lemma CheckPasses(s: State, k: string)
    requires DeviceOk(s) && k in s.recs && AllYielded(s, k)
    ensures forall x :: x in s.recs && x != k ==> !s.recs[x].entry
    ensures s.recs[k].condition.YieldedTo? ==> s.recs[k].condition.winner !in s.recs
  {
    forall x | x in s.recs && x != k ensures !s.recs[x].entry { assert RecYields(s, x); }
    assert RecYields(s, k);
    var c := s.recs[k].condition;
    if c.YieldedTo? && c.winner in s.recs {
      assert RecYields(s, c.winner);
      BeatsTotal(ActorOf(s, c.winner), ActorOf(s, k));
    }
  }

  /** Yields only ever name stronger actors. */
  lemma YieldsStayStrong(s: State, step: Step)
    requires DeviceOk(s) && Enabled(s, step)
    ensures var t, k := Next(s, step), step.k;
      && (PcOf(t, k).Colliding? || PcOf(t, k).Yielding? ==> Stronger(s, PcOf(t, k).winner, k))
      && (k in t.recs && t.recs[k].condition.YieldedTo? ==> Stronger(s, t.recs[k].condition.winner, k))
  {
    var k := step.k;
    assert PcYields(s, k) && (k in s.recs ==> RecYields(s, k));
    if step.Check? && !AllYielded(s, k) {
      ConflictByPriority(ActorOf(s, k), ActorOf(s, step.other));
      BeatsTotal(ActorOf(s, k), ActorOf(s, step.other));
    }
  }

  /** The step hides an entry that is on the device: the record reports a yield, or is gone. */
  predicate Hides(s: State, step: Step) {
    (step.StoreYield? || step.Leave?) && step.k in s.recs && s.recs[step.k].entry
  }

  /** An entry appears only for a record that passed the check. */
  lemma EntryEffect(s: State, step: Step)
    requires Enabled(s, step) && !Hides(s, step)
    ensures var t, k := Next(s, step), step.k;
      && t.left == s.left
      && (k in t.recs && t.recs[k].entry ==> PcOf(s, k).Cleared? || (k in s.recs && s.recs[k].entry))
      && (k in t.recs && t.recs[k].condition.YieldedTo? ==>
            (k in s.recs && t.recs[k].condition == s.recs[k].condition) || (PcOf(t, k).Idle? && !t.recs[k].entry))
      && (!PcOf(t, k).Idle? ==> k in t.recs || k !in s.recs)
  {
  }

  /** Everything the proof needs to know about a step of the worker of `k`, or of its record. */
  ghost predicate Effect(s: State, t: State, k: string) {
    && (forall j :: j != k ==> PcOf(t, j) == PcOf(s, j))
    && (forall x :: x != k ==> (x in t.recs <==> x in s.recs) && (x in t.recs ==> t.recs[x] == s.recs[x]))
    && (forall x :: x in s.used ==> x in t.used && t.used[x] == s.used[x])
    && (Winning(PcOf(t, k)) ==> Winning(PcOf(s, k)) || (k in s.recs && AllYielded(s, k)))
    && (k in t.recs ==> k in s.recs || k !in s.used)
    && (PcOf(t, k).Colliding? || PcOf(t, k).Yielding? ==> Stronger(s, PcOf(t, k).winner, k))
    && (k in t.recs && t.recs[k].condition.YieldedTo? ==> Stronger(s, t.recs[k].condition.winner, k))
    && (k in t.recs && t.recs[k].entry ==> PcOf(s, k).Cleared? || (k in s.recs && s.recs[k].entry))
    && t.left == s.left
    && (k in t.recs && t.recs[k].condition.YieldedTo? ==>
          (k in s.recs && t.recs[k].condition == s.recs[k].condition) || (PcOf(t, k).Idle? && !t.recs[k].entry))
    && (!PcOf(t, k).Idle? ==> k in t.recs)
  }

  lemma StepHasEffect(s: State, step: Step)
    requires DeviceOk(s) && Enabled(s, step) && !Hides(s, step)
    ensures Effect(s, Next(s, step), step.k)
  {
    StepEffect(s, step);
    UsedGrows(s, step);
    YieldsStayStrong(s, step);
    EntryEffect(s, step);
    assert PcYields(s, step.k);
  }

  lemma EffectKeepsYields(s: State, t: State, k: string, x: string)
    requires DeviceOk(s) && Effect(s, t, k) && x in t.recs
    ensures RecYields(t, x)
  {
    if x != k {
      assert RecYields(s, x);
    } else {
      assert k in s.recs ==> RecYields(s, k);
      if k in s.recs && AllYielded(s, k) { CheckPasses(s, k); }
    }
  }

  lemma EffectKeepsOneEntry(s: State, t: State, k: string, x: string, y: string)
    requires DeviceOk(s) && Effect(s, t, k) && x in t.recs && y in t.recs && x != y
    ensures Winning(PcOf(t, x)) ==> !t.recs[y].entry
    ensures t.recs[x].entry ==> !t.recs[y].entry
  {
    if k in s.recs && AllYielded(s, k) { CheckPasses(s, k); }
    assert PcYields(s, x) && PcYields(s, y);
  }

  lemma DeviceStep(s: State, step: Step)
    requires DeviceOk(s) && Enabled(s, step) && !Hides(s, step)
    ensures DeviceOk(Next(s, step))
  {
    var t, k := Next(s, step), step.k;
    StatusStep(s, step);
    StepHasEffect(s, step);
    EffectIsEnough(s, t, k);
  }

  lemma EffectIsEnough(s: State, t: State, k: string)
    requires DeviceOk(s) && StatusOk(t) && Effect(s, t, k)
    ensures DeviceOk(t)
  {
    forall x ensures PcYields(t, x) { assert PcYields(s, x); }
    forall x | x in t.recs ensures RecYields(t, x) { EffectKeepsYields(s, t, k, x); }
    forall x, y | x in t.recs && y in t.recs && x != y
      ensures (Winning(PcOf(t, x)) || t.recs[x].entry) ==> !t.recs[y].entry
    {
      EffectKeepsOneEntry(s, t, k, x, y);
    }
  }

  /** A run in which no step hides an entry. */
  ghost predicate Open(s: State, steps: seq<Step>)
    requires IsRun(s, steps)
    decreases |steps|
  {
    steps == [] || (!Hides(s, steps[0]) && Open(Next(s, steps[0]), steps[1..]))
  }

  lemma {:induction false} DeviceRun(s: State, steps: seq<Step>)
    requires DeviceOk(s) && IsRun(s, steps) && Open(s, steps)
    ensures DeviceOk(After(s, steps))
    decreases |steps|
  {
    if steps != [] {
      DeviceStep(s, steps[0]);
      DeviceRun(Next(s, steps[0]), steps[1..]);
    }
  }

  /**
    If no record reports a yield or disappears while its entry is on the device, no two contenders have their
    entries there at once, whatever else fails.
   */
  lemma OneEntry(s: State, steps: seq<Step>, x: string, y: string)
    requires Init(s) && IsRun(s, steps) && Open(s, steps)
    requires OnDevice(After(s, steps), x) && OnDevice(After(s, steps), y)
    ensures x == y
  {
    assert forall k :: PcOf(s, k) == Idle;
    DeviceRun(s, steps);
  }

  /** No cleanup leaves the entry, and no record disappears while its entry is on the device. */
  ghost predicate Thorough(s: State, steps: seq<Step>)
    requires IsRun(s, steps)
    decreases |steps|
  {
    steps == [] ||
    (!steps[0].CleanUpMisses? && !(steps[0].Leave? && steps[0].k in s.recs && s.recs[steps[0].k].entry) &&
     Thorough(Next(s, steps[0]), steps[1..]))
  }

  /** A record whose worker is about to report a yield has no entry any more. */
  ghost predicate YieldsAreClean(s: State) {
    forall k :: PcOf(s, k).Yielding? && k in s.recs ==> !s.recs[k].entry
  }

  lemma YieldStep(s: State, step: Step)
    requires YieldsAreClean(s) && Enabled(s, step) && !step.CleanUpMisses?
    ensures YieldsAreClean(Next(s, step))
  {
    StepEffect(s, step);
  }

  lemma {:induction false} ThoroughIsOpen(s: State, steps: seq<Step>)
    requires YieldsAreClean(s) && IsRun(s, steps) && Thorough(s, steps)
    ensures Open(s, steps)
    decreases |steps|
  {
    if steps != [] {
      YieldStep(s, steps[0]);
      ThoroughIsOpen(Next(s, steps[0]), steps[1..]);
    }
  }

  /** So if every cleanup takes the entry away, no two contenders have their entries on the device at once. */
  lemma OneEntryIfCleaned(s: State, steps: seq<Step>, x: string, y: string)
    requires Init(s) && IsRun(s, steps) && Thorough(s, steps)
    requires OnDevice(After(s, steps), x) && OnDevice(After(s, steps), y)
    ensures x == y
  {
    ThoroughIsOpen(s, steps);
    OneEntry(s, steps, x, y);
  }

  /* ---- Two ways to hide an entry ---- */

  lemma {:induction false} RunSnoc(s: State, steps: seq<Step>, step: Step)
    requires IsRun(s, steps) && Enabled(After(s, steps), step)
    ensures IsRun(s, steps + [step]) && After(s, steps + [step]) == Next(After(s, steps), step)
    decreases |steps|
  {
    if steps == [] {
      assert [step][1..] == [];
    } else {
      RunSnoc(Next(s, steps[0]), steps[1..], step);
      assert (steps + [step])[1..] == steps[1..] + [step];
    }
  }

  ghost predicate Reach(t: State) {
    exists steps :: IsRun(State(map[], map[], map[], {}), steps) && After(State(map[], map[], map[], {}), steps) == t
  }

  lemma Extend(t: State, step: Step)
    requires Reach(t) && Enabled(t, step)
    ensures Reach(Next(t, step))
  {
    var s := State(map[], map[], map[], {});
    var steps :| IsRun(s, steps) && After(s, steps) == t;
    RunSnoc(s, steps, step);
  }

  /** Every worker is between passes. */
  ghost predicate Quiet(s: State) {
    forall k :: PcOf(s, k).Idle?
  }

  /** A full pass of a contender that meets no objection and reports its success. */
  lemma WinningPass(s: State, k: string)
    requires Reach(s) && Quiet(s) && k in s.recs && AllYielded(s, k)
    ensures var t := State(s.recs[k := s.recs[k].(entry := true, applied := true, condition := Ready)], s.pcs[k := Idle], s.used, s.left);
      Reach(t) && Quiet(t)
  {
    EntryPass(s, k);
    var r := s.recs[k].(entry := true);
    var m := State(s.recs[k := r], s.pcs[k := Written], s.used, s.left);
    Extend(m, StoreApplied(k));
    assert s.recs[k := r][k := r.(applied := true, condition := Ready)] == s.recs[k := r.(applied := true, condition := Ready)];
    assert s.pcs[k := Written][k := Idle] == s.pcs[k := Idle];
    var t := State(s.recs[k := r.(applied := true, condition := Ready)], s.pcs[k := Idle], s.used, s.left);
    assert forall j :: j != k ==> PcOf(t, j) == PcOf(s, j);
  }

  /** The same pass up to its device write. */
  lemma EntryPass(s: State, k: string)
    requires Reach(s) && Quiet(s) && k in s.recs && AllYielded(s, k)
    ensures Reach(State(s.recs[k := s.recs[k].(entry := true)], s.pcs[k := Written], s.used, s.left))
  {
    Extend(s, Lock(k));
    var a := At(s, k, Fenced);
    assert AllYielded(a, k);
    Extend(a, Check(k, k));
    var b := At(a, k, Cleared);
    Extend(b, Write(k, false));
    assert s.pcs[k := Fenced][k := Cleared][k := Written] == s.pcs[k := Written];
  }

  /** A pass that collides with `w`, does not clean up and reports the yield. */
  lemma FalseYieldPass(s: State, k: string, w: string)
    requires Reach(s) && Quiet(s) && k in s.recs && w in s.recs && k in s.used && w in s.used && w != k
    requires !HasYielded(s, w, k) && !Beats(ActorOf(s, k), ActorOf(s, w))
    ensures var t := State(s.recs[k := s.recs[k].(applied := false, condition := YieldedTo(w))], s.pcs[k := Idle], s.used, s.left);
      Reach(t) && Quiet(t)
  {
    Extend(s, Lock(k));
    var a := At(s, k, Fenced);
    assert !AllYielded(a, k) by { assert w in a.recs && w != k; }
    ConflictByPriority(ActorOf(a, k), ActorOf(a, w));
    Extend(a, Check(k, w));
    var b := At(a, k, Colliding(w));
    Extend(b, CleanUpMisses(k));
    var c := At(b, k, Yielding(w));
    Extend(c, StoreYield(k));
    assert s.pcs[k := Fenced][k := Colliding(w)][k := Yielding(w)][k := Idle] == s.pcs[k := Idle];
    var t := State(s.recs[k := s.recs[k].(applied := false, condition := YieldedTo(w))], s.pcs[k := Idle], s.used, s.left);
    assert forall j :: j != k ==> PcOf(t, j) == PcOf(s, j);
  }

  ghost predicate HasYielded(s: State, x: string, k: string) {
    x in s.recs && !s.recs[x].applied && s.recs[x].condition == YieldedTo(k)
  }

  /** b alone is applied; then a, which has priority, joins. */
  lemma Incumbent() returns (t: State)
    ensures Reach(t) && Quiet(t) && t.recs.Keys == {"a", "b"} && t.used == map["b" := true, "a" := true]
    ensures t.recs["b"] == Rec(true, true, Ready, true) && t.recs["a"] == Rec(true, false, Nothing, false)
  {
    var s := State(map[], map[], map[], {});
    assert IsRun(s, []) && After(s, []) == s;
    Extend(s, Join("b", true));
    var a := Next(s, Join("b", true));
    assert AllYielded(a, "b");
    WinningPass(a, "b");
    var b := State(a.recs["b" := Rec(true, true, Ready, true)], a.pcs["b" := Idle], a.used, a.left);
    Extend(b, Join("a", true));
    t := Next(b, Join("a", true));
    assert forall k :: PcOf(t, k) == PcOf(b, k);
  }

  /** A loser whose cleanup left the entry reports its yield: both entries are on the device. */
  lemma FailedCleanupDoubles() returns (t: State)
    ensures Reach(t) && OnDevice(t, "a") && OnDevice(t, "b")
  {
    var s := Incumbent();
    assert !Leq("b", "a") by { assert "b"[0] == 'b' && "a"[0] == 'a'; }
    FalseYieldPass(s, "b", "a");
    var u := s.(recs := s.recs["b" := Rec(true, false, YieldedTo("a"), true)], pcs := s.pcs["b" := Idle]);
    assert AllYielded(u, "a");
    EntryPass(u, "a");
    t := u.(recs := u.recs["a" := Rec(true, false, Nothing, true)], pcs := u.pcs["a" := Written]);
  }

  /** A record is deleted while a Secret is missing: its entry stays, and the next contender adds its own. */
  lemma HiddenLeaveDoubles() returns (t: State)
    ensures Reach(t) && OnDevice(t, "a") && OnDevice(t, "b")
  {
    var s := Incumbent();
    Extend(s, Leave("b"));
    var u := s.(recs := s.recs - {"b"}, left := s.left + {"b"});
    assert Quiet(u) by { assert forall k :: PcOf(u, k) == PcOf(s, k); }
    assert AllYielded(u, "a");
    EntryPass(u, "a");
    t := u.(recs := u.recs["a" := u.recs["a"].(entry := true)], pcs := u.pcs["a" := Written]);
  }
}
