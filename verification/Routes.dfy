/** EnsureRoute, EnsureRoutes and EnsureDNS (internal/routeros/client.go). */
module Routes {
  import opened Text
  import opened Comments
  import opened Table
  import opened Ownership

  /* ---- One route ---- */

  datatype Route = Route(destination: string, gateway: string, distance: int)

  function RouteAttrs(r: Route, comment: string): map<Attr, string> {
    var attrs := map[DstAddress := r.destination, Gateway := r.gateway, Comment := comment];
    if r.distance > 0 then attrs[Distance := Decimal(r.distance)] else attrs
  }

  predicate RouteMatches(e: Entry, r: Route) {
    && At(e, DstAddress) == r.destination && At(e, Gateway) == r.gateway
    && (r.distance == 0 || At(e, Distance) == Decimal(r.distance))
  }

  predicate InPlace(t: Table, r: Route, comment: string) {
    var found := Select(t.rows, Exact(comment));
    |found| == 1 && RouteMatches(found[0], r)
  }

  function EnsureOne(t: Table, r: Route, comment: string): Table {
    if InPlace(t, r, comment) then t else Add(Delete(t, Exact(comment)), RouteAttrs(r, comment), Last)
  }

  lemma AddedIsFound(t: Table, r: Route, comment: string)
    requires !InPlace(t, r, comment)
    ensures Select(EnsureOne(t, r, comment).rows, Exact(comment)) == [Entry(t.next, RouteAttrs(r, comment))]
  {
    var p := Exact(comment);
    SelectAfterReject(t.rows, p, p);
    InsertSeen(Reject(t.rows, p), Entry(t.next, RouteAttrs(r, comment)), Last, p);
  }

  lemma EnsureOnePutsInPlace(t: Table, r: Route, comment: string)
    requires r.distance >= 0
    ensures InPlace(EnsureOne(t, r, comment), r, comment)
  {
    if !InPlace(t, r, comment) { AddedIsFound(t, r, comment); }
  }

  /** A second call changes nothing unless the distance is negative, which is asked for but never sent. */
  lemma EnsureOneSettlesExactly(t: Table, r: Route, comment: string)
    ensures EnsureOne(EnsureOne(t, r, comment), r, comment) == EnsureOne(t, r, comment) <==>
      r.distance >= 0 || InPlace(t, r, comment)
  {
    if r.distance >= 0 {
      EnsureOnePutsInPlace(t, r, comment);
    } else if !InPlace(t, r, comment) {
      AddedIsFound(t, r, comment);
      assert !InPlace(EnsureOne(t, r, comment), r, comment);
    }
  }

  lemma EnsureOneKeepsOthers(t: Table, r: Route, comment: string)
    ensures SameBut(Exact(comment), t.rows, EnsureOne(t, r, comment).rows)
  {
    if !InPlace(t, r, comment) {
      var p := Exact(comment);
      SelectAfterReject(t.rows, p, p);
      InsertSeen(Reject(t.rows, p), Entry(t.next, RouteAttrs(r, comment)), Last, p);
    }
  }

  /** What an exact comment leaves alone, a prefix above it leaves alone too; and so does any other comment. */
  lemma ExactKeeps(rows: seq<Entry>, rows': seq<Entry>, comment: string, prefix: string)
    requires SameBut(Exact(comment), rows, rows')
    ensures Under(comment, prefix) ==> SameBut(Prefix(prefix), rows, rows')
    ensures forall c :: c != comment ==> Select(rows', Exact(c)) == Select(rows, Exact(c))
  {
    if Under(comment, prefix) {
      assert Covers(Prefix(prefix), Exact(comment));
      SelectAfterReject(rows, Prefix(prefix), Exact(comment));
      SelectAfterReject(rows', Prefix(prefix), Exact(comment));
    }
    forall c | c != comment ensures Select(rows', Exact(c)) == Select(rows, Exact(c)) {
      assert Apart(Exact(comment), Exact(c));
      SelectAfterReject(rows, Exact(comment), Exact(c));
      SelectAfterReject(rows', Exact(comment), Exact(c));
    }
  }

  /* ---- Several gateways ---- */

  function HopComment(prefix: string, gateway: string): string {
    prefix + "/" + gateway
  }

  function Hop(destination: string, gateway: string): Route {
    Route(destination, gateway, 0)
  }

  function Desired(gateways: seq<string>, prefix: string): set<string> {
    set g | g in gateways :: HopComment(prefix, g)
  }

  predicate Stale(e: Entry, desired: set<string>, prefix: string) {
    Under(At(e, Comment), prefix) && At(e, Comment) !in desired
  }

  function Prune(rows: seq<Entry>, desired: set<string>, prefix: string): seq<Entry> {
    if rows == [] then []
    else if Stale(rows[0], desired, prefix) then Prune(rows[1..], desired, prefix)
    else [rows[0]] + Prune(rows[1..], desired, prefix)
  }

  function EnsureHops(t: Table, destination: string, gateways: seq<string>, prefix: string): Table {
    if gateways == [] then t
    else
      var last := gateways[|gateways| - 1];
      var before := EnsureHops(t, destination, gateways[..|gateways| - 1], prefix);
      EnsureOne(before, Hop(destination, last), HopComment(prefix, last))
  }

  function Pruned(t: Table, gateways: seq<string>, prefix: string): Table {
    Table(Prune(t.rows, Desired(gateways, prefix), prefix), t.next)
  }

  function EnsureAll(t: Table, destination: string, gateways: seq<string>, prefix: string): Table {
    EnsureHops(Pruned(t, gateways, prefix), destination, gateways, prefix)
  }

  lemma {:induction false} PruneKeeps(rows: seq<Entry>, desired: set<string>, prefix: string)
    ensures SameBut(Prefix(prefix), rows, Prune(rows, desired, prefix))
    ensures forall e :: e in Prune(rows, desired, prefix) <==> e in rows && !Stale(e, desired, prefix)
  {
    if rows != [] {
      PruneKeeps(rows[1..], desired, prefix);
      var rest := Prune(rows[1..], desired, prefix);
      assert ([rows[0]] + rest)[1..] == rest;
    }
  }

  lemma {:induction false} PruneNothing(rows: seq<Entry>, desired: set<string>, prefix: string)
    requires forall e :: e in rows ==> !Stale(e, desired, prefix)
    ensures Prune(rows, desired, prefix) == rows
  {
    if rows != [] {
      assert rows[0] in rows;
      PruneNothing(rows[1..], desired, prefix);
    }
  }

  lemma HopCommentUnder(prefix: string, gateway: string)
    ensures Under(HopComment(prefix, gateway), prefix)
  {
    assert HopComment(prefix, gateway)[..|prefix| + 1] == prefix + "/";
  }

  lemma HopCommentsDiffer(prefix: string, g: string, h: string)
    requires g != h
    ensures HopComment(prefix, g) != HopComment(prefix, h)
  {
    var k := |prefix| + 1;
    assert HopComment(prefix, g)[k..] == g && HopComment(prefix, h)[k..] == h;
  }

  predicate HopInPlace(t: Table, destination: string, gateway: string, prefix: string) {
    InPlace(t, Hop(destination, gateway), HopComment(prefix, gateway))
  }

  predicate NoStale(t: Table, desired: set<string>, prefix: string) {
    forall e :: e in t.rows ==> !Stale(e, desired, prefix)
  }

  lemma EnsureOneNoStale(t: Table, r: Route, comment: string, desired: set<string>, prefix: string)
    requires NoStale(t, desired, prefix) && comment in desired
    ensures NoStale(EnsureOne(t, r, comment), desired, prefix)
  {
    SelectIsSubset(t.rows, Exact(comment));
    InsertHas(Reject(t.rows, Exact(comment)), Entry(t.next, RouteAttrs(r, comment)), Last);
  }

  lemma {:induction false} HopsInPlace(t: Table, destination: string, gateways: seq<string>, prefix: string, desired: set<string>)
    requires NoStale(t, desired, prefix) && forall g :: g in gateways ==> HopComment(prefix, g) in desired
    ensures var t' := EnsureHops(t, destination, gateways, prefix);
      && NoStale(t', desired, prefix) && SameBut(Prefix(prefix), t.rows, t'.rows)
      && forall g :: g in gateways ==> HopInPlace(t', destination, g, prefix)
    decreases |gateways|
  {
    if gateways != [] {
      var front, last := gateways[..|gateways| - 1], gateways[|gateways| - 1];
      var before := EnsureHops(t, destination, front, prefix);
      HopsInPlace(t, destination, front, prefix, desired);
      var hop, comment := Hop(destination, last), HopComment(prefix, last);
      EnsureOneNoStale(before, hop, comment, desired, prefix);
      EnsureOnePutsInPlace(before, hop, comment);
      EnsureOneKeepsOthers(before, hop, comment);
      HopCommentUnder(prefix, last);
      ExactKeeps(before.rows, EnsureOne(before, hop, comment).rows, comment, prefix);
      forall g | g in gateways ensures HopInPlace(EnsureHops(t, destination, gateways, prefix), destination, g, prefix) {
        if g != last {
          assert g in front;
          HopCommentsDiffer(prefix, g, last);
        }
      }
    }
  }

  /**
    From any table: every gateway has exactly one route with the destination, no other entry is left
    under the prefix, and entries outside it are as they were.
   */
  lemma EnsureAllPutsInPlace(t: Table, destination: string, gateways: seq<string>, prefix: string)
    ensures var t' := EnsureAll(t, destination, gateways, prefix);
      && SameBut(Prefix(prefix), t.rows, t'.rows)
      && (forall g :: g in gateways ==> HopInPlace(t', destination, g, prefix))
      && (forall e :: e in t'.rows && Under(At(e, Comment), prefix) ==>
            exists g :: g in gateways && At(e, Comment) == HopComment(prefix, g))
  {
    var desired := Desired(gateways, prefix);
    PruneKeeps(t.rows, desired, prefix);
    HopsInPlace(Pruned(t, gateways, prefix), destination, gateways, prefix, desired);
    var t' := EnsureAll(t, destination, gateways, prefix);
    forall e | e in t'.rows && Under(At(e, Comment), prefix)
      ensures exists g :: g in gateways && At(e, Comment) == HopComment(prefix, g)
    {
      assert !Stale(e, desired, prefix);
    }
  }

  lemma {:induction false} HopsQuiet(t: Table, destination: string, gateways: seq<string>, prefix: string)
    requires forall g :: g in gateways ==> HopInPlace(t, destination, g, prefix)
    ensures EnsureHops(t, destination, gateways, prefix) == t
    decreases |gateways|
  {
    if gateways != [] {
      HopsQuiet(t, destination, gateways[..|gateways| - 1], prefix);
      assert HopInPlace(t, destination, gateways[|gateways| - 1], prefix);
    }
  }

  /** A second call changes nothing. */
  lemma EnsureAllIsQuiet(t: Table, destination: string, gateways: seq<string>, prefix: string)
    ensures var t' := EnsureAll(t, destination, gateways, prefix);
      Pruned(t', gateways, prefix) == t' && EnsureAll(t', destination, gateways, prefix) == t'
  {
    var desired := Desired(gateways, prefix);
    PruneKeeps(t.rows, desired, prefix);
    HopsInPlace(Pruned(t, gateways, prefix), destination, gateways, prefix, desired);
    var t' := EnsureAll(t, destination, gateways, prefix);
    PruneNothing(t'.rows, desired, prefix);
    HopsQuiet(t', destination, gateways, prefix);
  }

  /* ---- Static DNS ---- */

  datatype Dns = Dns(name: string, address: string, ttl: string)

  function DnsAttrs(d: Dns, comment: string): map<Attr, string> {
    var attrs := map[Name := d.name, Address := d.address, Comment := comment];
    if d.ttl != "" then attrs[Ttl := d.ttl] else attrs
  }

  predicate DnsMatches(e: Entry, d: Dns) {
    At(e, Name) == d.name && At(e, Address) == d.address && (d.ttl == "" || At(e, Ttl) == d.ttl)
  }

  predicate DnsInPlace(t: Table, d: Dns, comment: string) {
    var found := Select(t.rows, Exact(comment));
    |found| == 1 && DnsMatches(found[0], d)
  }

  function EnsureDns(t: Table, d: Dns, comment: string): Table {
    if DnsInPlace(t, d, comment) then t else Add(Delete(t, Exact(comment)), DnsAttrs(d, comment), Last)
  }

  /** One matching record under the comment, nothing else touched, and no change on a second call. */
  lemma EnsureDnsSettles(t: Table, d: Dns, comment: string)
    ensures var t' := EnsureDns(t, d, comment);
      DnsInPlace(t', d, comment) && SameBut(Exact(comment), t.rows, t'.rows) && EnsureDns(t', d, comment) == t'
  {
    if !DnsInPlace(t, d, comment) {
      var p := Exact(comment);
      SelectAfterReject(t.rows, p, p);
      InsertSeen(Reject(t.rows, p), Entry(t.next, DnsAttrs(d, comment)), Last, p);
    }
  }
}
