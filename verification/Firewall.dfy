/** EnsureFirewallRule (internal/routeros/client.go): convergence and placement of filter rules. */
module Firewall {
  import opened Text
  import opened Comments
  import opened Table
  import opened Ownership

  datatype Rule = Rule(
    chain: string, action: string, protocol: string, sourceAddress: string, destinationAddress: string,
    sourcePort: string, destinationPort: string, inInterface: string, outInterface: string,
    connectionState: seq<string>, connectionNatState: seq<string>, logPrefix: string, placeBefore: bool)

  /** The attributes that are sent only when they are not empty. */
  function Optional(rule: Rule): map<Attr, string> {
    map[
      Protocol := rule.protocol,
      SrcAddress := rule.sourceAddress,
      DstAddress := rule.destinationAddress,
      SrcPort := rule.sourcePort,
      DstPort := rule.destinationPort,
      InInterface := rule.inInterface,
      OutInterface := rule.outInterface,
      ConnectionState := Join(rule.connectionState, ','),
      ConnectionNatState := Join(rule.connectionNatState, ','),
      LogPrefix := rule.logPrefix]
  }

  function NonEmpty(attrs: map<Attr, string>): map<Attr, string> {
    map a | a in attrs && attrs[a] != "" :: attrs[a]
  }

  function RuleAttrs(rule: Rule, comment: string): map<Attr, string> {
    NonEmpty(Optional(rule)) + map[Chain := rule.chain, Action := rule.action, Comment := comment]
  }

  /** firewallRuleMatches. */
  predicate RuleMatches(e: Entry, rule: Rule) {
    At(e, Chain) == rule.chain && At(e, Action) == rule.action &&
    forall a :: a in Optional(rule) ==> At(e, a) == Optional(rule)[a]
  }

  lemma AttrsMatch(id: nat, rule: Rule, comment: string)
    ensures var e := Entry(id, RuleAttrs(rule, comment)); RuleMatches(e, rule) && At(e, Comment) == comment
  {
  }

  /* ---- Precedence ---- */

  function ChainOf(rows: seq<Entry>, id: nat): string {
    if rows == [] then "" else if rows[0].id == id then At(rows[0], Chain) else ChainOf(rows[1..], id)
  }

  /** Every entry of the chain before the one with this id is managed. */
  predicate Ahead(rows: seq<Entry>, id: nat, chain: string) {
    rows != [] &&
    if At(rows[0], Chain) != chain then Ahead(rows[1..], id, chain)
    else rows[0].id == id || (IsManaged(At(rows[0], Comment)) && Ahead(rows[1..], id, chain))
  }

  /** firewallRulePrecedesUnmanaged. */
  predicate Precedes(rows: seq<Entry>, id: nat) {
    ChainOf(rows, id) != "" && Ahead(rows, id, ChainOf(rows, id))
  }

  lemma {:induction false} ChainOfEntry(rows: seq<Entry>, e: Entry)
    requires Unique(rows) && e in rows
    ensures ChainOf(rows, e.id) == At(e, Chain)
  {
    if rows[0] != e {
      assert e in rows[1..];
      ChainOfEntry(rows[1..], e);
    }
  }

  /** In terms of positions: the rule comes before every unmanaged rule of its chain. */
  lemma {:induction false} AheadMeans(rows: seq<Entry>, k: nat, chain: string)
    requires Unique(rows) && k < |rows| && At(rows[k], Chain) == chain
    ensures Ahead(rows, rows[k].id, chain) <==>
      forall j :: 0 <= j < |rows| && At(rows[j], Chain) == chain && !IsManaged(At(rows[j], Comment)) ==> k <= j
    decreases |rows|
  {
    var e := rows[k];
    if k > 0 {
      var rest := rows[1..];
      assert rest[k - 1] == e;
      AheadMeans(rest, k - 1, chain);
      assert forall j :: 0 < j < |rows| ==> rows[j] == rest[j - 1];
      if Ahead(rows, e.id, chain) {
        forall j | 0 <= j < |rows| && At(rows[j], Chain) == chain && !IsManaged(At(rows[j], Comment)) ensures k <= j {
          if j > 0 { assert At(rest[j - 1], Chain) == chain; }
        }
      }
      if forall j :: 0 <= j < |rows| && At(rows[j], Chain) == chain && !IsManaged(At(rows[j], Comment)) ==> k <= j {
        forall j | 0 <= j < |rest| && At(rest[j], Chain) == chain && !IsManaged(At(rest[j], Comment))
          ensures k - 1 <= j
        {
          assert rest[j] == rows[j + 1];
        }
      }
    }
  }

  lemma {:induction false} AheadReject(rows: seq<Entry>, id: nat, chain: string, p: Pattern)
    requires Ahead(rows, id, chain)
    requires forall e :: e in rows && e.id == id ==> !Hits(p, e)
    ensures Ahead(Reject(rows, p), id, chain)
  {
    assert rows[0] in rows;
    if At(rows[0], Chain) != chain || rows[0].id != id {
      AheadReject(rows[1..], id, chain, p);
    }
    if !Hits(p, rows[0]) {
      assert Reject(rows, p)[1..] == Reject(rows[1..], p);
    }
  }

  lemma {:induction false} AheadInsert(rows: seq<Entry>, id: nat, chain: string, e: Entry, place: Place)
    requires Ahead(rows, id, chain) && IsManaged(At(e, Comment))
    ensures Ahead(Insert(rows, e, place), id, chain)
  {
    if place == Before(rows[0].id) {
      assert Insert(rows, e, place)[1..] == rows;
    } else {
      assert Insert(rows, e, place)[1..] == Insert(rows[1..], e, place);
      if At(rows[0], Chain) != chain || rows[0].id != id {
        AheadInsert(rows[1..], id, chain, e, place);
      }
    }
  }

  /** A rule placed before the first of its chain comes before everything there. */
  lemma {:induction false} AheadNew(rows: seq<Entry>, e: Entry)
    requires Unique(rows) && At(e, Chain) != ""
    ensures Ahead(Insert(rows, e, FirstOf(rows, At(e, Chain))), e.id, At(e, Chain))
  {
    var chain := At(e, Chain);
    var place := FirstOf(rows, chain);
    var all := Insert(rows, e, place);
    if rows != [] && At(rows[0], Chain) != chain {
      FirstOfIn(rows[1..], chain);
      assert place != Before(rows[0].id);
      assert all[1..] == Insert(rows[1..], e, place);
      AheadNew(rows[1..], e);
    }
  }

  lemma {:induction false} FirstOfIn(rows: seq<Entry>, chain: string)
    ensures var p := FirstOf(rows, chain); p.Before? ==> exists e :: e in rows && e.id == p.id
  {
    if rows != [] && chain != "" {
      if At(rows[0], Chain) == chain {
        assert rows[0] in rows;
      } else {
        FirstOfIn(rows[1..], chain);
      }
    }
  }

  lemma {:induction false} ChainOfStable(rows: seq<Entry>, e: Entry, p: Pattern, new_: Entry, place: Place)
    requires Unique(rows) && e in rows && !Hits(p, e) && Unused(new_.id, rows)
    ensures ChainOf(Reject(rows, p), e.id) == At(e, Chain)
    ensures ChainOf(Insert(Reject(rows, p), new_, place), e.id) == At(e, Chain)
  {
    RejectUnique(rows, p);
    SelectIsSubset(rows, p);
    ChainOfEntry(Reject(rows, p), e);
    InsertUnique(Reject(rows, p), new_, place);
    InsertHas(Reject(rows, p), new_, place);
    ChainOfEntry(Insert(Reject(rows, p), new_, place), e);
  }

  /* ---- Ensuring one rule ---- */

  /** The check EnsureFirewallRule makes before it changes anything. */
  predicate InPlace(t: Table, rule: Rule, comment: string) {
    var found := Select(t.rows, Exact(comment));
    |found| == 1 && RuleMatches(found[0], rule) && (rule.placeBefore ==> Precedes(t.rows, found[0].id))
  }

  function RulePlace(rows: seq<Entry>, rule: Rule): Place {
    if rule.placeBefore then FirstOf(rows, rule.chain) else Last
  }

  function Ensure(t: Table, rule: Rule, comment: string): Table {
    if InPlace(t, rule, comment) then t
    else
      var cleared := Delete(t, Prefix(comment));
      Add(cleared, RuleAttrs(rule, comment), RulePlace(cleared.rows, rule))
  }

  lemma EnsureValid(t: Table, rule: Rule, comment: string)
    requires Valid(t)
    ensures Valid(Ensure(t, rule, comment))
  {
    var cleared := Delete(t, Prefix(comment));
    DeleteValid(t, Prefix(comment));
    AddValid(cleared, RuleAttrs(rule, comment), RulePlace(cleared.rows, rule));
  }

  lemma EnsureKeepsOthers(t: Table, rule: Rule, comment: string)
    ensures SameBut(Prefix(comment), t.rows, Ensure(t, rule, comment).rows)
  {
    if !InPlace(t, rule, comment) {
      var cleared := Delete(t, Prefix(comment));
      var e := Entry(t.next, RuleAttrs(rule, comment));
      AttrsMatch(t.next, rule, comment);
      InsertSeen(cleared.rows, e, RulePlace(cleared.rows, rule), Prefix(comment));
      SelectAfterReject(t.rows, Prefix(comment), Prefix(comment));
    }
  }

  /** What is left to look for after an add. */
  lemma AddedIsFound(t: Table, rule: Rule, comment: string)
    requires Valid(t)
    ensures var cleared := Delete(t, Prefix(comment));
      var t' := Add(cleared, RuleAttrs(rule, comment), RulePlace(cleared.rows, rule));
      var e := Entry(t.next, RuleAttrs(rule, comment));
      && Select(t'.rows, Exact(comment)) == [e] && RuleMatches(e, rule)
      && ChainOf(t'.rows, e.id) == rule.chain
      && (rule.placeBefore && rule.chain != "" ==> Ahead(t'.rows, e.id, rule.chain))
  {
    var cleared := Delete(t, Prefix(comment));
    var e := Entry(t.next, RuleAttrs(rule, comment));
    var place := RulePlace(cleared.rows, rule);
    AttrsMatch(t.next, rule, comment);
    SelectAfterReject(t.rows, Prefix(comment), Exact(comment));
    InsertSeen(cleared.rows, e, place, Exact(comment));
    DeleteValid(t, Prefix(comment));
    AddValid(cleared, RuleAttrs(rule, comment), place);
    InsertHas(cleared.rows, e, place);
    ChainOfEntry(Insert(cleared.rows, e, place), e);
    if rule.placeBefore && rule.chain != "" { AheadNew(cleared.rows, e); }
  }

  /** A rule that asks for a place needs a chain to have it in. */
  predicate Placeable(rule: Rule) {
    rule.placeBefore ==> rule.chain != ""
  }

  lemma EnsurePutsInPlace(t: Table, rule: Rule, comment: string)
    requires Valid(t) && Placeable(rule)
    ensures InPlace(Ensure(t, rule, comment), rule, comment)
  {
    if !InPlace(t, rule, comment) { AddedIsFound(t, rule, comment); }
  }

  lemma NeverInPlace(t: Table, rule: Rule, comment: string)
    requires Valid(t) && !Placeable(rule)
    ensures !InPlace(t, rule, comment)
  {
    var found := Select(t.rows, Exact(comment));
    if |found| == 1 && RuleMatches(found[0], rule) {
      SelectIsSubset(t.rows, Exact(comment));
      assert found[0] in found;
      ChainOfEntry(t.rows, found[0]);
    }
  }

  /** Ensuring a rule twice changes nothing the second time, unless a placed rule names no chain. */
  lemma EnsureSettlesExactly(t: Table, rule: Rule, comment: string)
    requires Valid(t)
    ensures Ensure(Ensure(t, rule, comment), rule, comment) == Ensure(t, rule, comment) <==> Placeable(rule)
  {
    if Placeable(rule) {
      EnsurePutsInPlace(t, rule, comment);
    } else {
      EnsureValid(t, rule, comment);
      NeverInPlace(Ensure(t, rule, comment), rule, comment);
    }
  }

  /* ---- Many rules ---- */

  /** Ensuring another rule does not move this one out of place. */
  lemma EnsureKeepsInPlace(t: Table, rule: Rule, comment: string, other: Rule, comment': string)
    requires Valid(t) && InPlace(t, rule, comment)
    requires Apart(Prefix(comment'), Exact(comment)) && IsManaged(comment')
    ensures InPlace(Ensure(t, other, comment'), rule, comment)
  {
    if !InPlace(t, other, comment') {
      var p := Prefix(comment');
      var cleared := Delete(t, p);
      var new_ := Entry(t.next, RuleAttrs(other, comment'));
      var place := RulePlace(cleared.rows, other);
      AttrsMatch(t.next, other, comment');
      SelectAfterReject(t.rows, p, Exact(comment));
      assert Accepts(p, comment');
      InsertSeen(cleared.rows, new_, place, Exact(comment));
      if rule.placeBefore { KeepsPrecedence(t, comment, p, new_, place); }
    }
  }

  lemma KeepsPrecedence(t: Table, comment: string, p: Pattern, new_: Entry, place: Place)
    requires Valid(t) && Apart(p, Exact(comment)) && new_.id == t.next && IsManaged(At(new_, Comment))
    requires |Select(t.rows, Exact(comment))| == 1 && Precedes(t.rows, Select(t.rows, Exact(comment))[0].id)
    ensures Precedes(Insert(Reject(t.rows, p), new_, place), Select(t.rows, Exact(comment))[0].id)
  {
    var e := Select(t.rows, Exact(comment))[0];
    SelectIsSubset(t.rows, Exact(comment));
    assert e in Select(t.rows, Exact(comment));
    assert Accepts(Exact(comment), At(e, Comment));
    ChainOfEntry(t.rows, e);
    ChainOfStable(t.rows, e, p, new_, place);
    OnlyOne(t.rows, e);
    AheadReject(t.rows, e.id, At(e, Chain), p);
    AheadInsert(Reject(t.rows, p), e.id, At(e, Chain), new_, place);
  }

  lemma {:induction false} OnlyOne(rows: seq<Entry>, e: Entry)
    requires Unique(rows) && e in rows
    ensures forall x :: x in rows && x.id == e.id ==> x == e
  {
    if rows[0] != e {
      assert e in rows[1..];
      OnlyOne(rows[1..], e);
    } else {
      assert Unused(e.id, rows[1..]);
    }
  }

  /** A FirewallRule object and the rule it asks for. */
  datatype Wanted = Wanted(owner: Owner, rule: Rule)

  predicate Distinct(ws: seq<Wanted>) {
    (forall w :: w in ws ==> IsOwner(w.owner) && Placeable(w.rule)) &&
    (forall v, w :: v in ws && w in ws && v.owner == w.owner ==> v == w)
  }

  function EnsureEach(t: Table, ws: seq<Wanted>): Table {
    if ws == [] then t
    else Ensure(EnsureEach(t, ws[..|ws| - 1]), ws[|ws| - 1].rule, CommentOf(ws[|ws| - 1].owner))
  }

  lemma OwnersCommentsApart(v: Owner, w: Owner)
    requires IsOwner(v) && IsOwner(w) && v != w
    ensures Apart(Prefix(CommentOf(v)), Exact(CommentOf(w))) && IsManaged(CommentOf(v))
  {
    OwnersAreApart(v, w);
    assert Accepts(Mine(w), CommentOf(w));
    assert Accepts(Mine(v), CommentOf(v));
    OperatorCoversOwners(v);
  }

  /** After ensuring each rule once, in whatever order, every one of them is in place. */
  lemma {:induction false} EachInPlace(t: Table, ws: seq<Wanted>)
    requires Valid(t) && Distinct(ws)
    ensures var t' := EnsureEach(t, ws);
      Valid(t') && forall w :: w in ws ==> InPlace(t', w.rule, CommentOf(w.owner))
    decreases |ws|
  {
    if ws != [] {
      var front, last := ws[..|ws| - 1], ws[|ws| - 1];
      var before := EnsureEach(t, front);
      EachInPlace(t, front);
      EnsureValid(before, last.rule, CommentOf(last.owner));
      EnsurePutsInPlace(before, last.rule, CommentOf(last.owner));
      forall w | w in ws ensures InPlace(EnsureEach(t, ws), w.rule, CommentOf(w.owner)) {
        if w != last {
          assert w in front;
          OwnersCommentsApart(last.owner, w.owner);
          EnsureKeepsInPlace(before, w.rule, CommentOf(w.owner), last.rule, CommentOf(last.owner));
        }
      }
    }
  }

  lemma {:induction false} NothingMoves(t: Table, ws: seq<Wanted>)
    requires forall w :: w in ws ==> InPlace(t, w.rule, CommentOf(w.owner))
    ensures EnsureEach(t, ws) == t
    decreases |ws|
  {
    if ws != [] { NothingMoves(t, ws[..|ws| - 1]); }
  }

  /** A further round over the same rules, in whatever order and however often, changes nothing. */
  lemma SecondRoundIsQuiet(t: Table, ws: seq<Wanted>, again: seq<Wanted>)
    requires Valid(t) && Distinct(ws) && forall w :: w in again ==> w in ws
    ensures EnsureEach(EnsureEach(t, ws), again) == EnsureEach(t, ws)
  {
    EachInPlace(t, ws);
    NothingMoves(EnsureEach(t, ws), again);
  }

  /** Unmanaged rules keep their content and their order. */
  lemma {:induction false} UnmanagedStay(t: Table, ws: seq<Wanted>)
    requires forall w :: w in ws ==> IsOwner(w.owner)
    ensures Reject(EnsureEach(t, ws).rows, Operator) == Reject(t.rows, Operator)
    decreases |ws|
  {
    if ws != [] {
      var front, last := ws[..|ws| - 1], ws[|ws| - 1];
      var before := EnsureEach(t, front);
      UnmanagedStay(t, front);
      EnsureKeepsOthers(before, last.rule, CommentOf(last.owner));
      ForeignEntriesStay(last.owner, before.rows, EnsureEach(t, ws).rows);
    }
  }

  /** After the round every placed rule comes before all unmanaged rules of its chain. */
  lemma PlacedRulesLead(t: Table, ws: seq<Wanted>, w: Wanted, k: nat, j: nat)
    requires Valid(t) && Distinct(ws) && w in ws && w.rule.placeBefore
    requires var rows := EnsureEach(t, ws).rows;
      k < |rows| && At(rows[k], Comment) == CommentOf(w.owner) &&
      j < |rows| && At(rows[j], Chain) == w.rule.chain && !IsManaged(At(rows[j], Comment))
    ensures k < j
  {
    EachInPlace(t, ws);
    InPlaceLeads(EnsureEach(t, ws), w.rule, CommentOf(w.owner), k, j);
    OwnerIsManaged(w.owner);
  }

  lemma InPlaceLeads(t: Table, rule: Rule, comment: string, k: nat, j: nat)
    requires Valid(t) && InPlace(t, rule, comment) && rule.placeBefore
    requires k < |t.rows| && At(t.rows[k], Comment) == comment
    requires j < |t.rows| && At(t.rows[j], Chain) == rule.chain && !IsManaged(At(t.rows[j], Comment))
    ensures k <= j
  {
    var found := Select(t.rows, Exact(comment));
    SelectIsSubset(t.rows, Exact(comment));
    assert t.rows[k] in t.rows && Hits(Exact(comment), t.rows[k]);
    assert t.rows[k] in found;
    assert t.rows[k] == found[0];
    ChainOfEntry(t.rows, found[0]);
    AheadMeans(t.rows, k, rule.chain);
  }

  lemma OwnerIsManaged(o: Owner)
    ensures IsManaged(CommentOf(o))
  {
    OwnedIsManaged(CommentOf(o), o.kind, o.name, o.namespace_);
  }
}
