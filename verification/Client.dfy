/**
  The client's operations as it runs them (internal/routeros/client.go): print a table, then remove and
  add entries one command at a time.  Any command may fail, and a failed remove or add may or may not have
  reached the device.
 */
module Client {
  import opened Text
  import opened Comments
  import opened Table
  import opened Ownership
  import Firewall
  import Nat
  import Routes

  /** One table of the device behind an open session. */
  class Menu {
    var table: Table

    constructor (t: Table)
      requires Valid(t)
      ensures table == t
    {
      table := t;
    }

    /* ---- Commands ---- */

    method RunPrint() returns (ok: bool, rows: seq<Entry>)
      ensures ok ==> rows == table.rows
    {
      ok := *;
      rows := table.rows;
    }

    method RunRemove(id: nat) returns (ok: bool)
      requires Valid(table)
      modifies this
      ensures Valid(table)
      ensures table == Drop(old(table), id) || (!ok && table == old(table))
    {
      var reached := *;
      ok := *;
      ok := ok && reached;
      DropValid(table, id);
      if reached { table := Drop(table, id); }
    }

    method RunAdd(attrs: map<Attr, string>, place: Place) returns (ok: bool)
      requires Valid(table)
      modifies this
      ensures Valid(table)
      ensures table == Add(old(table), attrs, place) || (!ok && table == old(table))
    {
      var reached := *;
      ok := *;
      ok := ok && reached;
      AddValid(table, attrs, place);
      if reached { table := Add(table, attrs, place); }
    }

    /* ---- Queries ---- */

    method ManagedEntries(p: Pattern) returns (ok: bool, entries: seq<Entry>)
      ensures ok ==> entries == Select(table.rows, p)
    {
      var rows;
      entries := [];
      ok, rows := RunPrint();
      if !ok { return; }
      for i := 0 to |rows|
        invariant entries == Select(rows[..i], p)
      {
        assert rows[..i + 1] == rows[..i] + [rows[i]];
        SelectSnoc(rows[..i], rows[i], p);
        if Hits(p, rows[i]) {
          entries := entries + [rows[i]];
        }
      }
      assert rows[..|rows|] == rows;
    }

    method FirstIdsByChain() returns (ok: bool, first: map<string, nat>)
      ensures ok ==> forall chain :: PlaceBefore(first, chain) == FirstOf(table.rows, chain)
    {
      var rows;
      first := map[];
      ok, rows := RunPrint();
      if !ok { return; }
      for i := 0 to |rows|
        invariant forall chain :: PlaceBefore(first, chain) == FirstOf(rows[..i], chain)
      {
        var chain := At(rows[i], Chain);
        FirstSnoc(first, rows[..i], rows[i]);
        assert rows[..i + 1] == rows[..i] + [rows[i]];
        if chain == "" || chain in first {
          continue;
        }
        first := first[chain := rows[i].id];
      }
      assert rows[..|rows|] == rows;
    }

    method RulePrecedesUnmanaged(id: nat) returns (ok: bool, precedes: bool)
      ensures ok ==> precedes == Firewall.Precedes(table.rows, id)
    {
      var rows;
      precedes := false;
      ok, rows := RunPrint();
      if !ok { return; }
      var chain := "";
      var i := 0;
      assert rows[0..] == rows;
      while i < |rows|
        invariant 0 <= i <= |rows|
        invariant Firewall.ChainOf(rows, id) == Firewall.ChainOf(rows[i..], id)
      {
        assert rows[i..][1..] == rows[i + 1..];
        if rows[i].id == id {
          break;
        }
        i := i + 1;
      }
      if i < |rows| {
        chain := At(rows[i], Chain);
      }
      assert chain == Firewall.ChainOf(rows, id);
      if chain == "" {
        return;
      }
      for j := 0 to |rows|
        invariant Firewall.Ahead(rows, id, chain) == Firewall.Ahead(rows[j..], id, chain)
      {
        assert rows[j..][1..] == rows[j + 1..];
        if At(rows[j], Chain) != chain {
          continue;
        }
        if rows[j].id == id {
          precedes := true;
          return;
        }
        if !IsManaged(At(rows[j], Comment)) {
          return;
        }
      }
    }

    /* ---- Deleting ---- */

    /** Removes the printed entries one by one; a failure part way leaves all other entries alone. */
    method DeleteMatching(p: Pattern) returns (ok: bool)
      requires Valid(table)
      modifies this
      ensures Valid(table) && SameBut(p, old(table.rows), table.rows)
      ensures ok ==> table == Delete(old(table), p)
    {
      ghost var rows, next := table.rows, table.next;
      ghost var gone: set<nat> := {};
      var entries;
      ok, entries := ManagedEntries(p);
      WithoutNone(rows);
      SelectedIds(rows, p);
      RejectWithout(rows, p, gone);
      if !ok { return; }
      for i := 0 to |entries|
        invariant Valid(table)
        invariant gone == Ids(entries[..i])
        invariant table.next == next && table.rows == Without(rows, gone)
      {
        WithoutMore(rows, gone, entries[i].id);
        IdsSnoc(entries, i);
        SomeIds(rows, p, i);
        RejectWithout(rows, p, gone);
        RejectWithout(rows, p, gone + {entries[i].id});
        ok := RunRemove(entries[i].id);
        if !ok { return; }
        gone := gone + {entries[i].id};
      }
      assert entries[..|entries|] == entries;
      WithoutSelected(rows, p, gone);
      SelectAfterReject(rows, p, p);
    }

    /* ---- Ensuring ---- */

    method EnsureFirewallRule(rule: Firewall.Rule, comment: string) returns (ok: bool)
      requires Valid(table)
      modifies this
      ensures Valid(table) && SameBut(Prefix(comment), old(table.rows), table.rows)
      ensures ok ==> table == Firewall.Ensure(old(table), rule, comment)
    {
      Firewall.EnsureKeepsOthers(table, rule, comment);
      var entries;
      ok, entries := ManagedEntries(Exact(comment));
      if !ok { return; }
      if |entries| == 1 && Firewall.RuleMatches(entries[0], rule) {
        if !rule.placeBefore {
          return;
        }
        var precedes;
        ok, precedes := RulePrecedesUnmanaged(entries[0].id);
        if !ok || precedes {
          return;
        }
      }
      assert !Firewall.InPlace(table, rule, comment);
      ok := DeleteMatching(Prefix(comment));
      if !ok { return; }
      var place := Last;
      if rule.placeBefore {
        var first;
        ok, first := FirstIdsByChain();
        if !ok { return; }
        place := PlaceBefore(first, rule.chain);
      }
      assert place == Firewall.RulePlace(table.rows, rule);
      ok := RunAdd(Firewall.RuleAttrs(rule, comment), place);
    }

    method EnsurePortForward(forward: Nat.Forward, comment: string) returns (ok: bool)
      requires Valid(table)
      modifies this
      ensures Valid(table) && SameBut(Prefix(comment), old(table.rows), table.rows)
      ensures ok ==> table == Nat.Ensure(old(table), forward, comment)
    {
      Nat.EnsureKeepsOthers(table, forward, comment);
      var entries;
      ok, entries := ManagedEntries(Prefix(comment));
      if !ok { return; }
      var inPlace := PairInPlace(entries, forward, comment);
      if inPlace {
        return;
      }
      assert !Nat.InPlace(table, forward, comment);
      ok := DeleteMatching(Prefix(comment));
      if !ok { return; }
      var first;
      ok, first := FirstIdsByChain();
      if !ok { return; }
      ghost var cleared := table;
      var dstPlace, srcPlace := PlaceBefore(first, "dstnat"), PlaceBefore(first, "srcnat");
      assert dstPlace == FirstOf(cleared.rows, "dstnat") && srcPlace == FirstOf(cleared.rows, "srcnat");
      DstKeepsOthers(cleared, forward, comment);
      ok := RunAdd(Nat.DstAttrs(forward, comment), dstPlace);
      if !ok { return; }
      ok := RunAdd(Nat.SrcAttrs(forward, comment), srcPlace);
    }

    method EnsureRoute(route: Routes.Route, comment: string) returns (ok: bool)
      requires Valid(table)
      modifies this
      ensures Valid(table) && SameBut(Exact(comment), old(table.rows), table.rows)
      ensures ok ==> table == Routes.EnsureOne(old(table), route, comment)
    {
      Routes.EnsureOneKeepsOthers(table, route, comment);
      var entries;
      ok, entries := ManagedEntries(Exact(comment));
      if !ok { return; }
      if |entries| == 1 && Routes.RouteMatches(entries[0], route) {
        return;
      }
      ok := DeleteMatching(Exact(comment));
      if !ok { return; }
      ok := RunAdd(Routes.RouteAttrs(route, comment), Last);
    }

    method EnsureDns(dns: Routes.Dns, comment: string) returns (ok: bool)
      requires Valid(table)
      modifies this
      ensures Valid(table) && SameBut(Exact(comment), old(table.rows), table.rows)
      ensures ok ==> table == Routes.EnsureDns(old(table), dns, comment)
    {
      Routes.EnsureDnsSettles(table, dns, comment);
      var entries;
      ok, entries := ManagedEntries(Exact(comment));
      if !ok { return; }
      if |entries| == 1 && Routes.DnsMatches(entries[0], dns) {
        return;
      }
      ok := DeleteMatching(Exact(comment));
      if !ok { return; }
      ok := RunAdd(Routes.DnsAttrs(dns, comment), Last);
    }

    /** The first half of EnsureRoutes: removes what lies under the prefix and is not wanted any more. */
    method PruneRoutes(gateways: seq<string>, prefix: string) returns (ok: bool)
      requires Valid(table)
      modifies this
      ensures Valid(table) && SameBut(Prefix(prefix), old(table.rows), table.rows)
      ensures ok ==> table == Routes.Pruned(old(table), gateways, prefix)
    {
      var desired := Routes.Desired(gateways, prefix);
      ghost var rows, next := table.rows, table.next;
      ghost var gone: set<nat> := {};
      var entries;
      ok, entries := ManagedEntries(Prefix(prefix));
      WithoutNone(rows);
      if !ok { return; }
      for i := 0 to |entries|
        invariant Valid(table)
        invariant gone == StaleIds(entries[..i], desired)
        invariant table.next == next && table.rows == Without(rows, gone)
        invariant SameBut(Prefix(prefix), rows, table.rows)
      {
        StaleSnoc(entries, i, desired);
        if At(entries[i], Comment) !in desired {
          WithoutMore(rows, gone, entries[i].id);
          SomeStaleIds(rows, prefix, desired, i + 1);
          RejectWithout(rows, Prefix(prefix), gone + {entries[i].id});
          ok := RunRemove(entries[i].id);
          if !ok { return; }
          gone := gone + {entries[i].id};
        }
      }
      assert entries[..|entries|] == entries;
      StaleSelected(rows, prefix, desired);
      WithoutStale(rows, prefix, desired, gone);
    }

    method EnsureRoutes(destination: string, gateways: seq<string>, prefix: string) returns (ok: bool)
      requires Valid(table)
      modifies this
      ensures Valid(table) && SameBut(Prefix(prefix), old(table.rows), table.rows)
      ensures ok ==> table == Routes.EnsureAll(old(table), destination, gateways, prefix)
    {
      ok := PruneRoutes(gateways, prefix);
      if !ok { return; }
      ghost var pruned := table;
      for i := 0 to |gateways|
        invariant Valid(table) && ok && SameBut(Prefix(prefix), old(table.rows), table.rows)
        invariant table == Routes.EnsureHops(pruned, destination, gateways[..i], prefix)
      {
        var gateway := gateways[i];
        ghost var before := table.rows;
        ok := EnsureRoute(Routes.Hop(destination, gateway), Routes.HopComment(prefix, gateway));
        Routes.HopCommentUnder(prefix, gateway);
        Routes.ExactKeeps(before, table.rows, Routes.HopComment(prefix, gateway), prefix);
        assert gateways[..i + 1][..i] == gateways[..i];
        if !ok { return; }
      }
      assert gateways[..|gateways|] == gateways;
    }
  }

  /* ---- Facts about the loops ---- */

  function PlaceBefore(first: map<string, nat>, chain: string): Place {
    if chain in first then Before(first[chain]) else Last
  }

  lemma {:induction false} SelectSnoc(rows: seq<Entry>, e: Entry, p: Pattern)
    ensures Select(rows + [e], p) == if Hits(p, e) then Select(rows, p) + [e] else Select(rows, p)
  {
    if rows == [] {
      assert [e][1..] == [];
    } else {
      assert (rows + [e])[1..] == rows[1..] + [e];
      SelectSnoc(rows[1..], e, p);
    }
  }

  lemma {:induction false} FirstOfSnoc(rows: seq<Entry>, e: Entry, chain: string)
    ensures FirstOf(rows + [e], chain) ==
      if FirstOf(rows, chain) == Last && chain != "" && At(e, Chain) == chain then Before(e.id) else FirstOf(rows, chain)
  {
    if rows == [] {
      assert [] + [e] == [e] && [e][1..] == [];
    } else {
      assert (rows + [e])[1..] == rows[1..] + [e];
      FirstOfSnoc(rows[1..], e, chain);
    }
  }

  lemma FirstSnoc(first: map<string, nat>, rows: seq<Entry>, e: Entry)
    requires forall chain :: PlaceBefore(first, chain) == FirstOf(rows, chain)
    ensures var c := At(e, Chain); var more := if c == "" || c in first then first else first[c := e.id];
      forall chain :: PlaceBefore(more, chain) == FirstOf(rows + [e], chain)
  {
    var c := At(e, Chain);
    var more := if c == "" || c in first then first else first[c := e.id];
    forall chain ensures PlaceBefore(more, chain) == FirstOf(rows + [e], chain) {
      FirstOfSnoc(rows, e, chain);
      assert PlaceBefore(first, chain) == FirstOf(rows, chain);
    }
  }

  lemma IdsSnoc(entries: seq<Entry>, i: nat)
    requires i < |entries|
    ensures Ids(entries[..i + 1]) == Ids(entries[..i]) + {entries[i].id}
  {
    var a, b := entries[..i], entries[..i + 1];
    forall x | x in Ids(b) ensures x in Ids(a) + {entries[i].id} {
      var j :| 0 <= j < |b| && b[j].id == x;
      if j < i { assert a[j] == b[j]; }
    }
    forall x | x in Ids(a) ensures x in Ids(b) {
      var j :| 0 <= j < |a| && a[j].id == x;
      assert a[j] == b[j];
    }
    assert b[i].id == entries[i].id;
  }

  /** Ids being unique, the ids of the selected entries pick out just those. */
  lemma SelectedIds(rows: seq<Entry>, p: Pattern)
    requires Unique(rows)
    ensures forall e :: e in rows ==> (e.id in Ids(Select(rows, p)) <==> Hits(p, e))
  {
    SelectIsSubset(rows, p);
    var found := Select(rows, p);
    forall e | e in rows ensures e.id in Ids(found) <==> Hits(p, e) {
      Firewall.OnlyOne(rows, e);
      if Hits(p, e) {
        var j :| 0 <= j < |found| && found[j] == e;
      }
      if e.id in Ids(found) {
        var j :| 0 <= j < |found| && found[j].id == e.id;
        assert found[j] in found;
      }
    }
  }

  lemma SomeIds(rows: seq<Entry>, p: Pattern, i: nat)
    requires Unique(rows) && i < |Select(rows, p)|
    ensures forall e :: e in rows && e.id in Ids(Select(rows, p)[..i]) + {Select(rows, p)[i].id} ==> Hits(p, e)
  {
    SelectedIds(rows, p);
    var found := Select(rows, p);
    assert forall x :: x in Ids(found[..i]) + {found[i].id} ==> x in Ids(found);
  }

  /** The comparison loop of EnsurePortForward, where a later entry overrides an earlier one. */
  method PairInPlace(entries: seq<Entry>, forward: Nat.Forward, comment: string) returns (r: bool)
    ensures r == Nat.PairOf(entries, forward, comment)
  {
    var dstOk, srcOk := false, false;
    Nat.NatComments(comment);
    for i := 0 to |entries|
      invariant dstOk ==> exists j :: 0 <= j < i && Nat.IsDst(entries[j], forward, comment)
      invariant srcOk ==> exists j :: 0 <= j < i && Nat.IsSrc(entries[j], forward, comment)
      invariant i > 0 && Nat.IsDst(entries[i - 1], forward, comment) ==> dstOk
      invariant i > 0 && Nat.IsSrc(entries[i - 1], forward, comment) ==> srcOk
      invariant i > 1 && Nat.IsDst(entries[i - 2], forward, comment) && Nat.IsSrc(entries[i - 1], forward, comment) ==> dstOk
      invariant i > 1 && Nat.IsSrc(entries[i - 2], forward, comment) && Nat.IsDst(entries[i - 1], forward, comment) ==> srcOk
    {
      var value := At(entries[i], Comment);
      if value == Nat.DstComment(comment) {
        dstOk := Nat.DstMatches(entries[i], forward);
        assert dstOk ==> Nat.IsDst(entries[i], forward, comment);
      } else if value == Nat.SrcComment(comment) {
        srcOk := Nat.SrcMatches(entries[i], forward);
        assert srcOk ==> Nat.IsSrc(entries[i], forward, comment);
      }
    }
    r := dstOk && srcOk && |entries| == 2;
  }

  /** A pair of which only the first half was added. */
  lemma DstKeepsOthers(cleared: Table, forward: Nat.Forward, comment: string)
    ensures SameBut(Prefix(comment), cleared.rows,
      Add(cleared, Nat.DstAttrs(forward, comment), FirstOf(cleared.rows, "dstnat")).rows)
  {
    Nat.NatComments(comment);
    Nat.AttrsMatch(cleared.next, forward, comment);
    InsertSeen(cleared.rows, Entry(cleared.next, Nat.DstAttrs(forward, comment)), FirstOf(cleared.rows, "dstnat"), Prefix(comment));
  }

  function StaleIds(entries: seq<Entry>, desired: set<string>): set<nat> {
    set i | 0 <= i < |entries| && At(entries[i], Comment) !in desired :: entries[i].id
  }

  lemma StaleSnoc(entries: seq<Entry>, i: nat, desired: set<string>)
    requires i < |entries|
    ensures StaleIds(entries[..i + 1], desired) ==
      StaleIds(entries[..i], desired) + if At(entries[i], Comment) in desired then {} else {entries[i].id}
  {
    var a, b := entries[..i], entries[..i + 1];
    forall x | x in StaleIds(b, desired)
      ensures x in StaleIds(a, desired) || (At(entries[i], Comment) !in desired && x == entries[i].id)
    {
      var j :| 0 <= j < |b| && At(b[j], Comment) !in desired && b[j].id == x;
      if j < i { assert a[j] == b[j]; }
    }
    forall x | x in StaleIds(a, desired) ensures x in StaleIds(b, desired) {
      var j :| 0 <= j < |a| && At(a[j], Comment) !in desired && a[j].id == x;
      assert a[j] == b[j];
    }
    assert b[i] == entries[i];
  }

  lemma SomeStaleIds(rows: seq<Entry>, prefix: string, desired: set<string>, i: nat)
    requires Unique(rows) && i <= |Select(rows, Prefix(prefix))|
    ensures forall e :: e in rows && e.id in StaleIds(Select(rows, Prefix(prefix))[..i], desired) ==> Hits(Prefix(prefix), e)
  {
    SelectedIds(rows, Prefix(prefix));
    var found := Select(rows, Prefix(prefix));
    assert forall x :: x in StaleIds(found[..i], desired) ==> x in Ids(found);
  }

  lemma StaleSelected(rows: seq<Entry>, prefix: string, desired: set<string>)
    requires Unique(rows)
    ensures forall e :: e in rows ==>
      (e.id in StaleIds(Select(rows, Prefix(prefix)), desired) <==> Routes.Stale(e, desired, prefix))
  {
    var found := Select(rows, Prefix(prefix));
    SelectIsSubset(rows, Prefix(prefix));
    forall e | e in rows ensures e.id in StaleIds(found, desired) <==> Routes.Stale(e, desired, prefix) {
      Firewall.OnlyOne(rows, e);
      if e.id in StaleIds(found, desired) {
        var j :| 0 <= j < |found| && At(found[j], Comment) !in desired && found[j].id == e.id;
        assert found[j] in found;
      }
      if Routes.Stale(e, desired, prefix) {
        var j :| 0 <= j < |found| && found[j] == e;
      }
    }
  }

  lemma {:induction false} WithoutStale(rows: seq<Entry>, prefix: string, desired: set<string>, ids: set<nat>)
    requires forall e :: e in rows ==> (e.id in ids <==> Routes.Stale(e, desired, prefix))
    ensures Without(rows, ids) == Routes.Prune(rows, desired, prefix)
  {
    if rows != [] {
      assert rows[0] in rows;
      WithoutStale(rows[1..], prefix, desired, ids);
    }
  }
}
