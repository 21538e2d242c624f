/**
  An ordered RouterOS table and what the client's operations make of it (internal/routeros/client.go).
  The device gives every entry an id of its own and shows the attributes it was given; an attribute
  that was not given reads as the empty string.
 */
module Table {
  import opened Text
  import opened Comments

  datatype Attr =
    | Comment | Chain | Action | Protocol | SrcAddress | DstAddress | SrcPort | DstPort | InInterface | OutInterface
    | ConnectionState | ConnectionNatState | LogPrefix | ToAddresses | ToPorts | Gateway | Distance | Name | Address | Ttl

  datatype Entry = Entry(id: nat, attrs: map<Attr, string>)

  function At(e: Entry, a: Attr): string {
    if a in e.attrs then e.attrs[a] else ""
  }

  datatype Table = Table(rows: seq<Entry>, next: nat)

  /** No entry has this id. */
  predicate Unused(id: nat, rows: seq<Entry>) {
    forall e :: e in rows ==> e.id != id
  }

  predicate Unique(rows: seq<Entry>) {
    rows == [] || (Unused(rows[0].id, rows[1..]) && Unique(rows[1..]))
  }

  predicate Valid(t: Table) {
    Unique(t.rows) && forall e :: e in t.rows ==> e.id < t.next
  }

  /* ---- Selecting by comment ---- */

  datatype Pattern = All | Exact(comment: string) | Prefix(prefix: string)

  predicate Accepts(p: Pattern, value: string) {
    match p
    case All => true
    case Exact(comment) => value == comment
    case Prefix(prefix) => Under(value, prefix)
  }

  predicate Hits(p: Pattern, e: Entry) {
    Accepts(p, At(e, Comment))
  }

  function Select(rows: seq<Entry>, p: Pattern): seq<Entry> {
    if rows == [] then [] else if Hits(p, rows[0]) then [rows[0]] + Select(rows[1..], p) else Select(rows[1..], p)
  }

  function Reject(rows: seq<Entry>, p: Pattern): seq<Entry> {
    if rows == [] then [] else if Hits(p, rows[0]) then Reject(rows[1..], p) else [rows[0]] + Reject(rows[1..], p)
  }

  ghost predicate Covers(p: Pattern, q: Pattern) {
    forall v :: Accepts(q, v) ==> Accepts(p, v)
  }

  ghost predicate Apart(p: Pattern, q: Pattern) {
    forall v :: Accepts(q, v) ==> !Accepts(p, v)
  }

  lemma {:induction false} SelectIsSubset(rows: seq<Entry>, p: Pattern)
    ensures forall e :: e in Select(rows, p) <==> e in rows && Hits(p, e)
    ensures forall e :: e in Reject(rows, p) <==> e in rows && !Hits(p, e)
  {
    if rows != [] { SelectIsSubset(rows[1..], p); }
  }

  /** Deleting under one pattern, seen through another. */
  lemma {:induction false} SelectAfterReject(rows: seq<Entry>, p: Pattern, q: Pattern)
    ensures Covers(p, q) ==> Select(Reject(rows, p), q) == []
    ensures Apart(p, q) ==> Select(Reject(rows, p), q) == Select(rows, q)
    ensures Covers(p, q) ==> Reject(Reject(rows, q), p) == Reject(rows, p)
    ensures Reject(Reject(rows, p), p) == Reject(rows, p)
  {
    if rows != [] {
      SelectAfterReject(rows[1..], p, q);
      var rest := Reject(rows[1..], p);
      assert ([rows[0]] + rest)[1..] == rest;
      assert ([rows[0]] + Reject(rows[1..], q))[1..] == Reject(rows[1..], q);
    }
  }

  lemma {:induction false} RejectUnique(rows: seq<Entry>, p: Pattern)
    requires Unique(rows)
    ensures Unique(Reject(rows, p))
    decreases |rows|
  {
    if rows != [] {
      RejectUnique(rows[1..], p);
      SelectIsSubset(rows[1..], p);
    }
  }

  function Delete(t: Table, p: Pattern): Table {
    Table(Reject(t.rows, p), t.next)
  }

  lemma DeleteValid(t: Table, p: Pattern)
    requires Valid(t)
    ensures Valid(Delete(t, p))
  {
    RejectUnique(t.rows, p);
    SelectIsSubset(t.rows, p);
  }

  /* ---- Removing by id ---- */

  function Without(rows: seq<Entry>, ids: set<nat>): seq<Entry> {
    if rows == [] then [] else if rows[0].id in ids then Without(rows[1..], ids) else [rows[0]] + Without(rows[1..], ids)
  }

  function Drop(t: Table, id: nat): Table {
    Table(Without(t.rows, {id}), t.next)
  }

  lemma {:induction false} WithoutNone(rows: seq<Entry>)
    ensures Without(rows, {}) == rows
  {
    if rows != [] { WithoutNone(rows[1..]); }
  }

  lemma {:induction false} WithoutMore(rows: seq<Entry>, ids: set<nat>, id: nat)
    ensures Without(Without(rows, ids), {id}) == Without(rows, ids + {id})
  {
    if rows != [] {
      WithoutMore(rows[1..], ids, id);
      var rest := Without(rows[1..], ids);
      assert ([rows[0]] + rest)[1..] == rest;
    }
  }

  lemma {:induction false} WithoutValid(rows: seq<Entry>, ids: set<nat>)
    requires Unique(rows)
    ensures Unique(Without(rows, ids)) && forall e :: e in Without(rows, ids) ==> e in rows
    decreases |rows|
  {
    if rows != [] { WithoutValid(rows[1..], ids); }
  }

  lemma DropValid(t: Table, id: nat)
    requires Valid(t)
    ensures Valid(Drop(t, id))
  {
    WithoutValid(t.rows, {id});
  }

  function Ids(rows: seq<Entry>): set<nat> {
    set i | 0 <= i < |rows| :: rows[i].id
  }

  /** Removing the ids of the selected entries one by one is rejecting them. */
  lemma {:induction false} WithoutSelected(rows: seq<Entry>, p: Pattern, ids: set<nat>)
    requires forall e :: e in rows ==> (e.id in ids <==> Hits(p, e))
    ensures Without(rows, ids) == Reject(rows, p)
  {
    if rows != [] {
      assert rows[0] in rows;
      WithoutSelected(rows[1..], p, ids);
    }
  }

  /** Removing some of the entries under a pattern leaves all others. */
  lemma {:induction false} RejectWithout(rows: seq<Entry>, p: Pattern, ids: set<nat>)
    requires forall e :: e in rows && e.id in ids ==> Hits(p, e)
    ensures Reject(Without(rows, ids), p) == Reject(rows, p)
  {
    if rows != [] {
      assert rows[0] in rows;
      RejectWithout(rows[1..], p, ids);
      var rest := Without(rows[1..], ids);
      assert ([rows[0]] + rest)[1..] == rest;
    }
  }

  /* ---- Adding ---- */

  /** The place-before argument of an add, or none. */
  datatype Place = Last | Before(id: nat)

  function Insert(rows: seq<Entry>, e: Entry, place: Place): seq<Entry> {
    if rows == [] || place == Before(rows[0].id) then [e] + rows else [rows[0]] + Insert(rows[1..], e, place)
  }

  function Add(t: Table, attrs: map<Attr, string>, place: Place): Table {
    Table(Insert(t.rows, Entry(t.next, attrs), place), t.next + 1)
  }

  lemma {:induction false} InsertHas(rows: seq<Entry>, e: Entry, place: Place)
    ensures forall x :: x in Insert(rows, e, place) <==> x in rows || x == e
  {
    if rows != [] && place != Before(rows[0].id) { InsertHas(rows[1..], e, place); }
  }

  lemma {:induction false} InsertUnique(rows: seq<Entry>, e: Entry, place: Place)
    requires Unique(rows) && Unused(e.id, rows)
    ensures Unique(Insert(rows, e, place))
    decreases |rows|
  {
    if rows != [] && place != Before(rows[0].id) {
      InsertUnique(rows[1..], e, place);
      InsertHas(rows[1..], e, place);
    }
  }

  lemma AddValid(t: Table, attrs: map<Attr, string>, place: Place)
    requires Valid(t)
    ensures Valid(Add(t, attrs, place))
  {
    var e := Entry(t.next, attrs);
    InsertUnique(t.rows, e, place);
    InsertHas(t.rows, e, place);
  }

  /** A new entry, seen through a pattern. */
  lemma {:induction false} InsertSeen(rows: seq<Entry>, e: Entry, place: Place, p: Pattern)
    ensures Hits(p, e) ==> Reject(Insert(rows, e, place), p) == Reject(rows, p)
    ensures !Hits(p, e) ==> Select(Insert(rows, e, place), p) == Select(rows, p)
    ensures Hits(p, e) && Select(rows, p) == [] ==> Select(Insert(rows, e, place), p) == [e]
  {
    if rows != [] && place != Before(rows[0].id) {
      InsertSeen(rows[1..], e, place, p);
      assert Insert(rows, e, place)[1..] == Insert(rows[1..], e, place);
    } else {
      assert ([e] + rows)[1..] == rows;
    }
  }

  /** firstIDsByChain and placeBeforeArg: where the first entry of a chain stands. */
  function FirstOf(rows: seq<Entry>, chain: string): Place {
    if rows == [] || chain == "" then Last
    else if At(rows[0], Chain) == chain then Before(rows[0].id)
    else FirstOf(rows[1..], chain)
  }
}
