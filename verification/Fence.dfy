/**
  The reference-counted fence registry (internal/controller/router_fence.go): one lock per key,
  created on first use and removed with its last user.
 */
module Fence {

  type Name = string
  type Proc = nat

  /* ---- The protocol: atomic steps of any number of processes ---- */

  /** A fence entry: whether its channel holds the token, and its reference count. */
  datatype Cell = Cell(token: bool, refs: int)

  /** A process between entering acquire and dropping its reference. */
  datatype User =
    | Waiting(key: Name, id: nat)
    | Holding(key: Name, id: nat)
    | Returned(key: Name, id: nat)
    | Canceled(key: Name, id: nat)

  /** The registry's map, every entry ever allocated, and the processes using one. */
  datatype State = State(entries: map<Name, nat>, cells: map<nat, Cell>, users: map<Proc, User>)

  datatype Step =
    | Enter(p: Proc, key: Name, unused: nat)
    | Take(p: Proc)
    | Cancel(p: Proc)
    | Return(p: Proc)
    | Drop(p: Proc)

  predicate Enabled(s: State, step: Step) {
    match step
    case Enter(p, _, unused) => p !in s.users && unused !in s.cells
    case Take(p) => p in s.users && s.users[p].Waiting? && s.users[p].id in s.cells && s.cells[s.users[p].id].token
    case Cancel(p) => p in s.users && s.users[p].Waiting?
    case Return(p) => p in s.users && s.users[p].Holding? && s.users[p].id in s.cells && !s.cells[s.users[p].id].token
    case Drop(p) => p in s.users && (s.users[p].Returned? || s.users[p].Canceled?) && s.users[p].id in s.cells
  }

  function Next(s: State, step: Step): State
    requires Enabled(s, step)
  {
    match step
    case Enter(p, key, unused) =>
      var id := if key in s.entries then s.entries[key] else unused;
      var cell := if key in s.entries && id in s.cells then s.cells[id] else Cell(true, 0);
      State(s.entries[key := id], s.cells[id := cell.(refs := cell.refs + 1)], s.users[p := Waiting(key, id)])
    case Take(p) =>
      var u := s.users[p];
      s.(cells := s.cells[u.id := s.cells[u.id].(token := false)], users := s.users[p := Holding(u.key, u.id)])
    case Cancel(p) =>
      var u := s.users[p];
      s.(users := s.users[p := Canceled(u.key, u.id)])
    case Return(p) =>
      var u := s.users[p];
      s.(cells := s.cells[u.id := s.cells[u.id].(token := true)], users := s.users[p := Returned(u.key, u.id)])
    case Drop(p) =>
      var u := s.users[p];
      var cell := s.cells[u.id].(refs := s.cells[u.id].refs - 1);
      State(if cell.refs == 0 && u.key in s.entries && s.entries[u.key] == u.id then s.entries - {u.key} else s.entries,
            s.cells[u.id := cell], s.users - {p})
  }

  function UsersOf(s: State, id: nat): set<Proc> {
    set p | p in s.users && s.users[p].id == id
  }

  /** Every user of a key goes through the one entry the map holds for it. */
  ghost predicate Shared(s: State) {
    && (forall p :: p in s.users ==> s.users[p].key in s.entries && s.entries[s.users[p].key] == s.users[p].id)
    && (forall k :: k in s.entries ==> s.entries[k] in s.cells)
    && (forall j, k :: j in s.entries && k in s.entries && s.entries[j] == s.entries[k] ==> j == k)
  }

  /** `refs` counts waiters, holders and releases in progress; the map holds exactly the used entries. */
  ghost predicate Counted(s: State) {
    && (forall id :: id in s.cells ==> s.cells[id].refs == |UsersOf(s, id)|)
    && (forall k :: k in s.entries ==> UsersOf(s, s.entries[k]) != {})
  }

  predicate Held(s: State, p: Proc, id: nat) {
    p in s.users && s.users[p].Holding? && s.users[p].id == id
  }

  /** The token is out exactly while one process holds the fence. */
  ghost predicate Tokens(s: State) {
    && (forall p, id :: Held(s, p, id) && id in s.cells ==> !s.cells[id].token)
    && (forall p, q, id :: Held(s, p, id) && Held(s, q, id) ==> p == q)
    && (forall id :: id in s.cells && !s.cells[id].token ==> exists p :: Held(s, p, id))
  }

  ghost predicate Inv(s: State) {
    Shared(s) && Counted(s) && Tokens(s)
  }

  /* ---- Every step keeps the invariant ---- */

  lemma EnterUsers(s: State, step: Step, id: nat)
    requires Shared(s) && Enabled(s, step) && step.Enter?
    ensures UsersOf(Next(s, step), id) ==
      if id == Next(s, step).users[step.p].id then UsersOf(s, id) + {step.p} else UsersOf(s, id)
    ensures step.p !in UsersOf(s, id)
    ensures id !in s.cells ==> UsersOf(s, id) == {}
  {
  }

  lemma EnterShared(s: State, step: Step)
    requires Shared(s) && Enabled(s, step) && step.Enter?
    ensures Shared(Next(s, step))
  {
  }

  lemma EnterKeepsInv(s: State, step: Step)
    requires Inv(s) && Enabled(s, step) && step.Enter?
    ensures Inv(Next(s, step))
  {
    EnterShared(s, step);
    EnterCounted(s, step);
    EnterTokens(s, step);
  }

  lemma EnterCounted(s: State, step: Step)
    requires Shared(s) && Counted(s) && Enabled(s, step) && step.Enter?
    ensures Counted(Next(s, step))
  {
    var t := Next(s, step);
    forall id | id in t.cells ensures t.cells[id].refs == |UsersOf(t, id)| { EnterUsers(s, step, id); }
    forall k | k in t.entries ensures UsersOf(t, t.entries[k]) != {} { EnterUsers(s, step, t.entries[k]); }
  }

  lemma EnterTokens(s: State, step: Step)
    requires Inv(s) && Enabled(s, step) && step.Enter?
    ensures Tokens(Next(s, step))
  {
    var t := Next(s, step);
    assert forall p, id :: Held(t, p, id) <==> Held(s, p, id);
  }

  lemma DropUsers(s: State, p: Proc, id: nat)
    requires Enabled(s, Drop(p))
    ensures UsersOf(Next(s, Drop(p)), id) == UsersOf(s, id) - {p}
    ensures p in UsersOf(s, id) <==> id == s.users[p].id
    ensures id != s.users[p].id ==> UsersOf(Next(s, Drop(p)), id) == UsersOf(s, id)
  {
  }

  lemma TwoUsers(users: set<Proc>, p: Proc, q: Proc)
    requires p in users && q in users && p != q
    ensures |users| > 1
  {
    assert q in users - {p};
    assert |users - {p}| > 0;
  }

  lemma DropShared(s: State, p: Proc)
    requires Inv(s) && Enabled(s, Drop(p))
    ensures Shared(Next(s, Drop(p)))
  {
    var t, u := Next(s, Drop(p)), s.users[p];
    forall q | q in t.users ensures t.users[q].key in t.entries && t.entries[t.users[q].key] == t.users[q].id {
      if s.users[q].id == u.id { TwoUsers(UsersOf(s, u.id), p, q); }
    }
  }

  lemma DropCounted(s: State, p: Proc)
    requires Inv(s) && Enabled(s, Drop(p))
    ensures Counted(Next(s, Drop(p)))
  {
    var t := Next(s, Drop(p));
    forall id | id in t.cells ensures t.cells[id].refs == |UsersOf(t, id)| { DropUsers(s, p, id); }
    forall k | k in t.entries ensures UsersOf(t, t.entries[k]) != {} { DropUsers(s, p, t.entries[k]); }
  }

  /** Dropping a reference; the last one takes the entry out of the map. */
  lemma DropKeepsInv(s: State, p: Proc)
    requires Inv(s) && Enabled(s, Drop(p))
    ensures Inv(Next(s, Drop(p)))
  {
    DropShared(s, p);
    DropCounted(s, p);
    DropTokens(s, p);
  }

  lemma DropTokens(s: State, p: Proc)
    requires Inv(s) && Enabled(s, Drop(p))
    ensures Tokens(Next(s, Drop(p)))
  {
    var t := Next(s, Drop(p));
    assert forall q, id :: Held(t, q, id) <==> Held(s, q, id);
  }

  /** `t` differs from `s` in tokens and phases only. */
  ghost predicate SameRefs(s: State, t: State) {
    && t.entries == s.entries && t.users.Keys == s.users.Keys && t.cells.Keys == s.cells.Keys
    && (forall q :: q in s.users ==> t.users[q].key == s.users[q].key && t.users[q].id == s.users[q].id)
    && (forall id :: id in s.cells ==> t.cells[id].refs == s.cells[id].refs)
  }

  /** Taking or returning the token, or giving up, keeps every reference. */
  lemma MoveKeepsRefs(s: State, t: State)
    requires Shared(s) && Counted(s) && SameRefs(s, t)
    ensures Shared(t) && Counted(t)
  {
    assert forall id :: UsersOf(t, id) == UsersOf(s, id);
  }

  lemma TakeTokens(s: State, p: Proc)
    requires Tokens(s) && Enabled(s, Take(p))
    ensures Tokens(Next(s, Take(p)))
  {
    var t, u := Next(s, Take(p)), s.users[p];
    assert Held(t, p, u.id);
    assert forall q, id :: Held(t, q, id) <==> Held(s, q, id) || (q == p && id == u.id);
  }

  lemma CancelTokens(s: State, p: Proc)
    requires Tokens(s) && Enabled(s, Cancel(p))
    ensures Tokens(Next(s, Cancel(p)))
  {
    assert forall q, id :: Held(Next(s, Cancel(p)), q, id) <==> Held(s, q, id);
  }

  lemma ReturnTokens(s: State, p: Proc)
    requires Tokens(s) && Enabled(s, Return(p))
    ensures Tokens(Next(s, Return(p)))
  {
    var t, u := Next(s, Return(p)), s.users[p];
    assert Held(s, p, u.id);
    assert forall q, id :: Held(t, q, id) <==> Held(s, q, id) && q != p;
    assert forall q :: !Held(t, q, u.id);
  }

  lemma MoveSame(s: State, step: Step)
    requires Enabled(s, step) && (step.Take? || step.Cancel? || step.Return?)
    ensures SameRefs(s, Next(s, step))
  {
  }

  lemma MoveKeepsInv(s: State, step: Step)
    requires Inv(s) && Enabled(s, step) && (step.Take? || step.Cancel? || step.Return?)
    ensures Inv(Next(s, step))
  {
    MoveSame(s, step);
    MoveKeepsRefs(s, Next(s, step));
    match step {
      case Take(p) => TakeTokens(s, p);
      case Cancel(p) => CancelTokens(s, p);
      case Return(p) => ReturnTokens(s, p);
    }
  }

  lemma StepKeepsInv(s: State, step: Step)
    requires Inv(s) && Enabled(s, step)
    ensures Inv(Next(s, step))
  {
    match step {
      case Enter(_, _, _) => EnterKeepsInv(s, step);
      case Drop(p) => DropKeepsInv(s, p);
      case _ => MoveKeepsInv(s, step);
    }
  }

  ghost predicate IsRun(s: State, steps: seq<Step>)
    decreases |steps|
  {
    steps == [] || (Enabled(s, steps[0]) && IsRun(Next(s, steps[0]), steps[1..]))
  }

  ghost function After(s: State, steps: seq<Step>): State
    requires IsRun(s, steps)
    decreases |steps|
  {
    if steps == [] then s else After(Next(s, steps[0]), steps[1..])
  }

  lemma {:induction false} RunKeepsInv(s: State, steps: seq<Step>)
    requires Inv(s) && IsRun(s, steps)
    ensures Inv(After(s, steps))
    decreases |steps|
  {
    if steps != [] {
      StepKeepsInv(s, steps[0]);
      RunKeepsInv(Next(s, steps[0]), steps[1..]);
    }
  }

  const NOBODY := State(map[], map[], map[])

  /** For every interleaving: one holder per key, and every user of a key shares its one entry. */
  lemma MutualExclusion(steps: seq<Step>, p: Proc, q: Proc)
    requires IsRun(NOBODY, steps)
    requires var t := After(NOBODY, steps); p in t.users && q in t.users && t.users[p].key == t.users[q].key
    ensures var t := After(NOBODY, steps);
      && t.users[p].id == t.users[q].id
      && (t.users[p].Holding? && t.users[q].Holding? ==> p == q)
  {
    RunKeepsInv(NOBODY, steps);
    var t := After(NOBODY, steps);
    assert t.users[p].Holding? ==> Held(t, p, t.users[p].id);
    assert t.users[q].Holding? ==> Held(t, q, t.users[q].id);
  }

  /** For every interleaving: an entry is in the map exactly while somebody refers to it. */
  lemma EntryLivesWhileUsed(steps: seq<Step>, id: nat)
    requires IsRun(NOBODY, steps) && id in After(NOBODY, steps).cells
    ensures var t := After(NOBODY, steps);
      && t.cells[id].refs == |UsersOf(t, id)|
      && (t.cells[id].refs > 0 <==> exists k :: k in t.entries && t.entries[k] == id)
  {
    RunKeepsInv(NOBODY, steps);
    var t := After(NOBODY, steps);
    if t.cells[id].refs > 0 {
      assert UsersOf(t, id) != {};
      var p :| p in UsersOf(t, id);
      assert t.users[p].key in t.entries;
    }
  }

  /** For every interleaving: whoever holds a fence can return the token at once, and then drop its reference. */
  lemma ReleaseNeverBlocks(steps: seq<Step>, p: Proc)
    requires IsRun(NOBODY, steps)
    requires var t := After(NOBODY, steps); p in t.users && t.users[p].Holding?
    ensures var t := After(NOBODY, steps); Enabled(t, Return(p)) && Enabled(Next(t, Return(p)), Drop(p))
  {
    RunKeepsInv(NOBODY, steps);
    var t := After(NOBODY, steps);
    assert Held(t, p, t.users[p].id);
  }

  /** For every interleaving: a fence nobody holds has its token available to any waiter. */
  lemma FreeFenceCanBeTaken(steps: seq<Step>, p: Proc)
    requires IsRun(NOBODY, steps)
    requires var t := After(NOBODY, steps);
      && p in t.users && t.users[p].Waiting?
      && forall q :: q in t.users && t.users[q].Holding? ==> t.users[q].key != t.users[p].key
    ensures Enabled(After(NOBODY, steps), Take(p))
  {
    RunKeepsInv(NOBODY, steps);
  }

  /** A state some interleaving leads to. */
  ghost predicate Reachable(s: State) {
    exists steps :: IsRun(NOBODY, steps) && After(NOBODY, steps) == s
  }

  lemma {:induction false} RunSnoc(s: State, steps: seq<Step>, step: Step)
    requires IsRun(s, steps) && Enabled(After(s, steps), step)
    ensures IsRun(s, steps + [step]) && After(s, steps + [step]) == Next(After(s, steps), step)
    decreases |steps|
  {
    if steps == [] {
      assert [step][1..] == [];
    } else {
      RunSnoc(Next(s, steps[0]), steps[1..], step);
      assert (steps + [step])[1..] == steps[1..] + [step];
    }
  }

  lemma ReachStep(s: State, step: Step)
    requires Reachable(s) && Enabled(s, step)
    ensures Reachable(Next(s, step))
  {
    var steps :| IsRun(NOBODY, steps) && After(NOBODY, steps) == s;
    RunSnoc(NOBODY, steps, step);
  }

  /** In a reachable state the channel of a held fence is empty. */
  lemma HeldIsEmpty(s: State, p: Proc)
    requires Reachable(s) && p in s.users && s.users[p].Holding?
    ensures s.users[p].id in s.cells && !s.cells[s.users[p].id].token
  {
    var steps :| IsRun(NOBODY, steps) && After(NOBODY, steps) == s;
    ReleaseNeverBlocks(steps, p);
  }

  /* ---- The registry itself: each method is one atomic step of the protocol ---- */

  /** routerFenceEntry: a channel of capacity one and a reference count. */
  class Entry {
    var token: bool
    var refs: int

    constructor ()
      ensures token && refs == 0
    {
      token, refs := true, 0;
    }
  }

  /** routerFenceRegistry; `model` is the protocol state it implements. */
  class Registry {
    var entries: map<Name, Entry>
    ghost var nextId: nat
    ghost var model: State

    ghost predicate Valid()
      reads this, entries.Values
    {
      && Reachable(model) && entries.Keys == model.entries.Keys
      && (forall id :: id in model.cells ==> id < nextId)
      && (forall k :: k in entries ==> model.entries[k] in model.cells &&
                                       model.cells[model.entries[k]] == Cell(entries[k].token, entries[k].refs))
      && (forall j, k :: j in entries && k in entries && j != k ==>
            entries[j] != entries[k] && model.entries[j] != model.entries[k])
    }

    /** `entry` is what process `p` got from acquire for `key`. */
    ghost predicate Uses(p: Proc, key: Name, entry: Entry)
      reads this
    {
      && p in model.users && model.users[p].key == key
      && key in entries && entries[key] == entry && key in model.entries && model.entries[key] == model.users[p].id
    }

    constructor ()
      ensures Valid() && model == NOBODY
    {
      entries, nextId, model := map[], 0, NOBODY;
      assert IsRun(NOBODY, []) && After(NOBODY, []) == NOBODY;
    }

    /** acquire up to its select: look the entry up or create it, and take a reference. */
    method Enter(ghost p: Proc, key: Name) returns (entry: Entry)
      requires Valid() && p !in model.users
      modifies this, entries.Values
      ensures Valid() && Uses(p, key, entry)
      ensures model == Next(old(model), Step.Enter(p, key, old(nextId)))
      ensures key in old(entries) ==> entry == old(entries[key])
      ensures key !in old(entries) ==> fresh(entry)
    {
      ghost var step := Step.Enter(p, key, nextId);
      ReachStep(model, step);
      if key in entries {
        entry := entries[key];
      } else {
        entry := new Entry();
        entries := entries[key := entry];
      }
      entry.refs := entry.refs + 1;
      model, nextId := Next(model, step), nextId + 1;
    }

    /** The select of acquire; it proceeds when the context is done or the token is there. */
    method Await(ghost p: Proc, ghost key: Name, entry: Entry, done: bool) returns (taken: bool)
      requires Valid() && Uses(p, key, entry) && model.users[p].Waiting?
      requires done || entry.token
      modifies this, entry
      ensures Valid() && Uses(p, key, entry) && entries == old(entries)
      ensures taken ==> old(entry.token) && model == Next(old(model), Take(p))
      ensures !taken ==> done && model == Next(old(model), Cancel(p))
    {
      taken := entry.token;
      if taken && done {
        taken := *;
      }
      if taken {
        ReachStep(model, Take(p));
        entry.token := false;
        model := Next(model, Take(p));
      } else {
        ReachStep(model, Cancel(p));
        model := Next(model, Cancel(p));
      }
    }

    /** The send of the release function: the channel is empty, so it never blocks. */
    method SendToken(ghost p: Proc, ghost key: Name, entry: Entry)
      requires Valid() && Uses(p, key, entry) && model.users[p].Holding?
      modifies this, entry
      ensures !old(entry.token) && entry.token
      ensures Valid() && Uses(p, key, entry) && entries == old(entries)
      ensures model == Next(old(model), Return(p))
    {
      HeldIsEmpty(model, p);
      ReachStep(model, Return(p));
      entry.token := true;
      model := Next(model, Return(p));
    }

    /** releaseReference. */
    method ReleaseReference(ghost p: Proc, key: Name, entry: Entry)
      requires Valid() && Uses(p, key, entry)
      requires model.users[p].Returned? || model.users[p].Canceled?
      modifies this, entry
      ensures Valid()
      ensures model == Next(old(model), Drop(p))
      ensures entries == if entry.refs == 0 then old(entries) - {key} else old(entries)
    {
      ReachStep(model, Drop(p));
      entry.refs := entry.refs - 1;
      if entry.refs == 0 && key in entries && entries[key] == entry {
        entries := entries - {key};
      }
      model := Next(model, Drop(p));
    }
  }
}
