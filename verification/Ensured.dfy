/**
  What the entries look like that the client's Ensure methods leave on a device, attribute by attribute, and when
  exactly they leave a table alone.
 */
module Ensured {
  import opened Text
  import opened Comments
  import opened Table
  import Firewall
  import Nat
  import Routes

  /** The entry at `k`, and no other, has this comment. */
  predicate OnlyAt(rows: seq<Entry>, comment: string, k: int) {
    0 <= k < |rows| && forall j :: 0 <= j < |rows| ==> (At(rows[j], Comment) == comment <==> j == k)
  }

  lemma {:induction false} NoneSelected(rows: seq<Entry>, p: Pattern)
    ensures Select(rows, p) == [] <==> forall j :: 0 <= j < |rows| ==> !Hits(p, rows[j])
  {
    SelectIsSubset(rows, p);
    forall j | 0 <= j < |rows| && Select(rows, p) == [] ensures !Hits(p, rows[j]) {
      assert rows[j] in rows;
      assert rows[j] !in Select(rows, p);
    }
    if Select(rows, p) != [] {
      assert Select(rows, p)[0] in Select(rows, p);
    }
  }

  /** One entry is selected exactly if one position hits. */
  lemma {:induction false} OneSelected(rows: seq<Entry>, p: Pattern) returns (k: nat)
    requires |Select(rows, p)| == 1
    ensures k < |rows| && rows[k] == Select(rows, p)[0]
    ensures forall j :: 0 <= j < |rows| ==> (Hits(p, rows[j]) <==> j == k)
  {
    if Hits(p, rows[0]) {
      k := 0;
      NoneSelected(rows[1..], p);
      forall j | 0 < j < |rows| ensures !Hits(p, rows[j]) { assert rows[j] == rows[1..][j - 1]; }
    } else {
      var m := OneSelected(rows[1..], p);
      k := m + 1;
      forall j | 0 < j < |rows| ensures Hits(p, rows[j]) <==> j == k { assert rows[j] == rows[1..][j - 1]; }
    }
  }

  lemma {:induction false} SelectedAt(rows: seq<Entry>, p: Pattern, k: nat)
    requires k < |rows| && forall j :: 0 <= j < |rows| ==> (Hits(p, rows[j]) <==> j == k)
    ensures Select(rows, p) == [rows[k]]
  {
    if k == 0 {
      forall j | 0 <= j < |rows[1..]| ensures !Hits(p, rows[1..][j]) { assert rows[1..][j] == rows[j + 1]; }
      NoneSelected(rows[1..], p);
    } else {
      forall j | 0 <= j < |rows[1..]| ensures Hits(p, rows[1..][j]) <==> j == k - 1 { assert rows[1..][j] == rows[j + 1]; }
      SelectedAt(rows[1..], p, k - 1);
    }
  }

  lemma OnlyAtSelected(rows: seq<Entry>, comment: string) returns (k: nat)
    requires |Select(rows, Exact(comment))| == 1
    ensures OnlyAt(rows, comment, k) && rows[k] == Select(rows, Exact(comment))[0]
  {
    k := OneSelected(rows, Exact(comment));
    assert forall j :: 0 <= j < |rows| ==> (Hits(Exact(comment), rows[j]) <==> At(rows[j], Comment) == comment);
  }

  lemma SelectedOnlyAt(rows: seq<Entry>, comment: string, k: int)
    requires OnlyAt(rows, comment, k)
    ensures Select(rows, Exact(comment)) == [rows[k]]
  {
    assert forall j :: 0 <= j < |rows| ==> (Hits(Exact(comment), rows[j]) <==> At(rows[j], Comment) == comment);
    SelectedAt(rows, Exact(comment), k);
  }

  /* ---- Filter rules ---- */

  /**
    After EnsureFirewallRule exactly one entry has the comment, and each of its attributes reads as the field of
    the rule says, empty ones included.
   */
  lemma EnsuredRule(t: Table, rule: Firewall.Rule, comment: string) returns (k: nat, e: Entry)
    requires Valid(t)
    ensures var rows := Firewall.Ensure(t, rule, comment).rows; OnlyAt(rows, comment, k) && e == rows[k]
    ensures At(e, Chain) == rule.chain && At(e, Action) == rule.action
    ensures At(e, Protocol) == rule.protocol
    ensures At(e, SrcAddress) == rule.sourceAddress && At(e, DstAddress) == rule.destinationAddress
    ensures At(e, SrcPort) == rule.sourcePort && At(e, DstPort) == rule.destinationPort
    ensures At(e, InInterface) == rule.inInterface && At(e, OutInterface) == rule.outInterface
    ensures At(e, ConnectionState) == Join(rule.connectionState, ',')
    ensures At(e, ConnectionNatState) == Join(rule.connectionNatState, ',')
    ensures At(e, LogPrefix) == rule.logPrefix
  {
    RuleFound(t, rule, comment);
    var rows := Firewall.Ensure(t, rule, comment).rows;
    k := OnlyAtSelected(rows, comment);
    e := rows[k];
    MatchesSpelledOut(e, rule);
  }

  lemma RuleFound(t: Table, rule: Firewall.Rule, comment: string)
    requires Valid(t)
    ensures var found := Select(Firewall.Ensure(t, rule, comment).rows, Exact(comment));
      |found| == 1 && Firewall.RuleMatches(found[0], rule)
  {
    if !Firewall.InPlace(t, rule, comment) { Firewall.AddedIsFound(t, rule, comment); }
  }

  /** A rule is left alone exactly if it is there, alone, with all its attributes, and in front if it has to be. */
  lemma RuleIsLeftAloneExactly(t: Table, rule: Firewall.Rule, comment: string)
    requires Valid(t)
    ensures Firewall.Ensure(t, rule, comment) == t <==>
      exists k :: OnlyAt(t.rows, comment, k) && RuleShown(t.rows, k, rule)
  {
    var found := Select(t.rows, Exact(comment));
    if Firewall.InPlace(t, rule, comment) {
      var k := OnlyAtSelected(t.rows, comment);
      RuleShownExactly(t.rows, k, rule);
    }
    if k :| OnlyAt(t.rows, comment, k) && RuleShown(t.rows, k, rule) {
      SelectedOnlyAt(t.rows, comment, k);
      RuleShownExactly(t.rows, k, rule);
    }
  }

  /** The twelve attributes and the place that EnsureFirewallRule compares. */
  predicate RuleShown(rows: seq<Entry>, k: int, rule: Firewall.Rule)
    requires 0 <= k < |rows|
  {
    var e := rows[k];
    && At(e, Chain) == rule.chain
    && At(e, Action) == rule.action
    && At(e, Protocol) == rule.protocol
    && At(e, SrcAddress) == rule.sourceAddress
    && At(e, DstAddress) == rule.destinationAddress
    && At(e, SrcPort) == rule.sourcePort
    && At(e, DstPort) == rule.destinationPort
    && At(e, InInterface) == rule.inInterface
    && At(e, OutInterface) == rule.outInterface
    && At(e, ConnectionState) == Join(rule.connectionState, ',')
    && At(e, ConnectionNatState) == Join(rule.connectionNatState, ',')
    && At(e, LogPrefix) == rule.logPrefix
    && (rule.placeBefore ==>
          rule.chain != "" &&
          forall j :: 0 <= j < k && At(rows[j], Chain) == rule.chain ==> Under(At(rows[j], Comment), MANAGED))
  }

  lemma RuleShownExactly(rows: seq<Entry>, k: nat, rule: Firewall.Rule)
    requires Unique(rows) && k < |rows|
    ensures RuleShown(rows, k, rule) <==>
      Firewall.RuleMatches(rows[k], rule) && (rule.placeBefore ==> Firewall.Precedes(rows, rows[k].id))
  {
    Firewall.ChainOfEntry(rows, rows[k]);
    if At(rows[k], Chain) == rule.chain { Firewall.AheadMeans(rows, k, rule.chain); }
    MatchesSpelledOut(rows[k], rule);
  }

  lemma MatchesSpelledOut(e: Entry, rule: Firewall.Rule)
    ensures Firewall.RuleMatches(e, rule) <==>
      && At(e, Chain) == rule.chain && At(e, Action) == rule.action && At(e, Protocol) == rule.protocol
      && At(e, SrcAddress) == rule.sourceAddress && At(e, DstAddress) == rule.destinationAddress
      && At(e, SrcPort) == rule.sourcePort && At(e, DstPort) == rule.destinationPort
      && At(e, InInterface) == rule.inInterface && At(e, OutInterface) == rule.outInterface
      && At(e, ConnectionState) == Join(rule.connectionState, ',')
      && At(e, ConnectionNatState) == Join(rule.connectionNatState, ',') && At(e, LogPrefix) == rule.logPrefix
  {
    var o := Firewall.Optional(rule);
    if Firewall.RuleMatches(e, rule) {
      assert Protocol in o && SrcAddress in o && DstAddress in o && SrcPort in o && DstPort in o && InInterface in o;
      assert OutInterface in o && ConnectionState in o && ConnectionNatState in o && LogPrefix in o;
    }
  }

  /* ---- Port forwards ---- */

  /** The positions `i` and `j`, and no others, have the comment or one below it. */
  predicate PairAt(rows: seq<Entry>, comment: string, i: int, j: int) {
    0 <= i < |rows| && 0 <= j < |rows| && i != j &&
    forall k :: 0 <= k < |rows| ==> (Under(At(rows[k], Comment), comment) <==> k == i || k == j)
  }

  /** The destination and the source entry of a port forward. */
  predicate ForwardShown(d: Entry, s: Entry, f: Nat.Forward, comment: string) {
    && At(d, Comment) == comment + "/dstnat"
    && At(d, Chain) == "dstnat"
    && At(d, Action) == "dst-nat"
    && At(d, Protocol) == f.protocol
    && At(d, DstPort) == Decimal(f.externalPort)
    && At(d, DstAddress) == f.publicIP
    && At(d, ToAddresses) == f.target
    && At(d, ToPorts) == Decimal(f.targetPort)
    && At(s, Comment) == comment + "/srcnat"
    && At(s, Chain) == "srcnat"
    && At(s, Action) == "masquerade"
    && At(s, DstAddress) == f.target
  }

  lemma {:induction false} TwoSelected(rows: seq<Entry>, p: Pattern) returns (i: nat, j: nat)
    requires |Select(rows, p)| == 2
    ensures i < j < |rows| && rows[i] == Select(rows, p)[0] && rows[j] == Select(rows, p)[1]
    ensures forall k :: 0 <= k < |rows| ==> (Hits(p, rows[k]) <==> k == i || k == j)
  {
    if Hits(p, rows[0]) {
      var m := OneSelected(rows[1..], p);
      i, j := 0, m + 1;
    } else {
      i, j := TwoSelected(rows[1..], p);
      i, j := i + 1, j + 1;
    }
    forall k | 0 < k < |rows| ensures Hits(p, rows[k]) <==> k == i || k == j { assert rows[k] == rows[1..][k - 1]; }
  }

  lemma {:induction false} SelectedTwo(rows: seq<Entry>, p: Pattern, i: nat, j: nat)
    requires i < j < |rows| && forall k :: 0 <= k < |rows| ==> (Hits(p, rows[k]) <==> k == i || k == j)
    ensures Select(rows, p) == [rows[i], rows[j]]
  {
    var rest := rows[1..];
    assert forall k :: 0 <= k < |rest| ==> rest[k] == rows[k + 1];
    if i == 0 {
      SelectedAt(rest, p, j - 1);
    } else {
      SelectedTwo(rest, p, i - 1, j - 1);
    }
  }

  lemma PairShown(rows: seq<Entry>, f: Nat.Forward, comment: string) returns (i: nat, j: nat)
    requires Nat.PairOf(Select(rows, Prefix(comment)), f, comment)
    ensures PairAt(rows, comment, i, j) && ForwardShown(rows[i], rows[j], f, comment)
  {
    i, j := TwoSelected(rows, Prefix(comment));
    assert forall k :: 0 <= k < |rows| ==> (Hits(Prefix(comment), rows[k]) <==> Under(At(rows[k], Comment), comment));
    if !Nat.IsDst(rows[i], f, comment) { i, j := j, i; }
  }

  lemma ShownIsPair(rows: seq<Entry>, f: Nat.Forward, comment: string, i: int, j: int)
    requires PairAt(rows, comment, i, j) && ForwardShown(rows[i], rows[j], f, comment)
    ensures Nat.PairOf(Select(rows, Prefix(comment)), f, comment)
  {
    assert forall k :: 0 <= k < |rows| ==> (Hits(Prefix(comment), rows[k]) <==> Under(At(rows[k], Comment), comment));
    if i < j { SelectedTwo(rows, Prefix(comment), i, j); } else { SelectedTwo(rows, Prefix(comment), j, i); }
  }

  /** After EnsurePortForward two entries lie under the comment, with these attributes. */
  lemma EnsuredForward(t: Table, f: Nat.Forward, comment: string) returns (i: nat, j: nat)
    ensures var rows := Nat.Ensure(t, f, comment).rows;
      PairAt(rows, comment, i, j) && ForwardShown(rows[i], rows[j], f, comment)
  {
    Nat.EnsurePutsInPlace(t, f, comment);
    i, j := PairShown(Nat.Ensure(t, f, comment).rows, f, comment);
  }

  /** The entry at `i` comes before all others of its chain. */
  predicate LeadsChain(rows: seq<Entry>, i: int, chain: string) {
    0 <= i < |rows| && At(rows[i], Chain) == chain && forall k :: 0 <= k < i ==> At(rows[k], Chain) != chain
  }

  lemma {:induction false} FirstLeads(rows: seq<Entry>, chain: string, i: int)
    requires Unique(rows) && 0 <= i < |rows| && FirstOf(rows, chain) == Before(rows[i].id)
    ensures LeadsChain(rows, i, chain)
  {
    if At(rows[0], Chain) != chain {
      if i == 0 { Firewall.FirstOfIn(rows[1..], chain); }
      FirstLeads(rows[1..], chain, i - 1);
      assert forall k :: 0 < k < |rows| ==> rows[k] == rows[1..][k - 1];
    }
  }

  lemma {:induction false} InsertedIsFirst(rows: seq<Entry>, e: Entry, chain: string)
    requires Unique(rows) && At(e, Chain) == chain != ""
    ensures FirstOf(Insert(rows, e, FirstOf(rows, chain)), chain) == Before(e.id)
  {
    if rows != [] && At(rows[0], Chain) != chain {
      var place := FirstOf(rows, chain);
      Firewall.FirstOfIn(rows[1..], chain);
      assert place != Before(rows[0].id);
      assert Insert(rows, e, place)[1..] == Insert(rows[1..], e, place);
      InsertedIsFirst(rows[1..], e, chain);
    }
  }

  lemma {:induction false} OtherChainStays(rows: seq<Entry>, e: Entry, place: Place, chain: string)
    requires At(e, Chain) != chain
    ensures FirstOf(Insert(rows, e, place), chain) == FirstOf(rows, chain)
  {
    if rows != [] && place != Before(rows[0].id) {
      assert Insert(rows, e, place)[1..] == Insert(rows[1..], e, place);
      OtherChainStays(rows[1..], e, place, chain);
    } else {
      assert ([e] + rows)[1..] == rows;
    }
  }

  /** A pair that had to be added comes first in its two chains, whoever the other entries belong to. */
  lemma NewForwardLeads(t: Table, f: Nat.Forward, comment: string, i: int, j: int)
    requires Valid(t) && Nat.Ensure(t, f, comment) != t
    requires var rows := Nat.Ensure(t, f, comment).rows;
      PairAt(rows, comment, i, j) && ForwardShown(rows[i], rows[j], f, comment)
    ensures var rows := Nat.Ensure(t, f, comment).rows; LeadsChain(rows, i, "dstnat") && LeadsChain(rows, j, "srcnat")
  {
    var cleared := Delete(t, Prefix(comment));
    var dst, src := Entry(t.next, Nat.DstAttrs(f, comment)), Entry(t.next + 1, Nat.SrcAttrs(f, comment));
    var d, e := FirstOf(cleared.rows, "dstnat"), FirstOf(cleared.rows, "srcnat");
    var first := Add(cleared, Nat.DstAttrs(f, comment), d);
    var last := Add(first, Nat.SrcAttrs(f, comment), e);
    Nat.NatComments(comment);
    Nat.AttrsMatch(t.next, f, comment);
    Nat.AttrsMatch(t.next + 1, f, comment);
    DeleteValid(t, Prefix(comment));
    AddValid(cleared, Nat.DstAttrs(f, comment), d);
    AddValid(first, Nat.SrcAttrs(f, comment), e);
    InsertedIsFirst(cleared.rows, dst, "dstnat");
    OtherChainStays(cleared.rows, dst, d, "srcnat");
    InsertedIsFirst(first.rows, src, "srcnat");
    OtherChainStays(first.rows, src, e, "dstnat");
    InsertHas(cleared.rows, dst, d);
    InsertHas(first.rows, src, e);
    PairIsNew(last.rows, f, comment, i, j, dst, src);
    FirstLeads(last.rows, "dstnat", i);
    FirstLeads(last.rows, "srcnat", j);
  }

  lemma PairIsNew(rows: seq<Entry>, f: Nat.Forward, comment: string, i: int, j: int, dst: Entry, src: Entry)
    requires PairAt(rows, comment, i, j) && ForwardShown(rows[i], rows[j], f, comment)
    requires dst in rows && Nat.IsDst(dst, f, comment) && src in rows && Nat.IsSrc(src, f, comment)
    ensures rows[i] == dst && rows[j] == src
  {
    Nat.NatComments(comment);
    var a :| 0 <= a < |rows| && rows[a] == dst;
    var b :| 0 <= b < |rows| && rows[b] == src;
    assert Under(At(rows[a], Comment), comment) && Under(At(rows[b], Comment), comment);
  }

  /** A pair is left alone exactly if it is there and nothing else is. */
  lemma ForwardIsLeftAloneExactly(t: Table, f: Nat.Forward, comment: string)
    ensures Nat.Ensure(t, f, comment) == t <==>
      exists i, j :: PairAt(t.rows, comment, i, j) && ForwardShown(t.rows[i], t.rows[j], f, comment)
  {
    if Nat.InPlace(t, f, comment) { var i, j := PairShown(t.rows, f, comment); }
    if i, j :| PairAt(t.rows, comment, i, j) && ForwardShown(t.rows[i], t.rows[j], f, comment) {
      ShownIsPair(t.rows, f, comment, i, j);
    }
  }

  /* ---- Routes and DNS records ---- */

  predicate RouteShown(e: Entry, r: Routes.Route) {
    && At(e, DstAddress) == r.destination
    && At(e, Gateway) == r.gateway
    && (r.distance != 0 ==> At(e, Distance) == Decimal(r.distance))
  }

  /** After EnsureRoute exactly one entry has the comment, with this destination, gateway and distance. */
  lemma EnsuredRoute(t: Table, r: Routes.Route, comment: string) returns (k: nat)
    requires r.distance >= 0
    ensures var rows := Routes.EnsureOne(t, r, comment).rows; OnlyAt(rows, comment, k) && RouteShown(rows[k], r)
  {
    Routes.EnsureOnePutsInPlace(t, r, comment);
    k := OnlyAtSelected(Routes.EnsureOne(t, r, comment).rows, comment);
  }

  lemma RouteIsLeftAloneExactly(t: Table, r: Routes.Route, comment: string)
    ensures Routes.EnsureOne(t, r, comment) == t <==> exists k :: OnlyAt(t.rows, comment, k) && RouteShown(t.rows[k], r)
  {
    if Routes.InPlace(t, r, comment) { var k := OnlyAtSelected(t.rows, comment); }
    if k :| OnlyAt(t.rows, comment, k) && RouteShown(t.rows[k], r) { SelectedOnlyAt(t.rows, comment, k); }
  }

  /** After EnsureRoutes every gateway has exactly one entry, and each entry under the prefix belongs to a gateway. */
  lemma EnsuredRoutes(t: Table, destination: string, gateways: seq<string>, prefix: string)
    ensures var rows := Routes.EnsureAll(t, destination, gateways, prefix).rows;
      && (forall g :: g in gateways ==>
            exists k :: OnlyAt(rows, prefix + "/" + g, k) && At(rows[k], DstAddress) == destination && At(rows[k], Gateway) == g)
      && (forall j :: 0 <= j < |rows| && Under(At(rows[j], Comment), prefix) ==>
            exists g :: g in gateways && At(rows[j], Comment) == prefix + "/" + g)
  {
    var rows := Routes.EnsureAll(t, destination, gateways, prefix).rows;
    Routes.EnsureAllPutsInPlace(t, destination, gateways, prefix);
    forall g | g in gateways
      ensures exists k :: OnlyAt(rows, prefix + "/" + g, k) && At(rows[k], DstAddress) == destination && At(rows[k], Gateway) == g
    {
      assert Routes.HopInPlace(Routes.EnsureAll(t, destination, gateways, prefix), destination, g, prefix);
      var k := OnlyAtSelected(rows, prefix + "/" + g);
    }
    forall j | 0 <= j < |rows| && Under(At(rows[j], Comment), prefix)
      ensures exists g :: g in gateways && At(rows[j], Comment) == prefix + "/" + g
    {
      assert rows[j] in rows;
      var g :| g in gateways && At(rows[j], Comment) == Routes.HopComment(prefix, g);
    }
  }

  predicate DnsShown(e: Entry, d: Routes.Dns) {
    && At(e, Name) == d.name
    && At(e, Address) == d.address
    && (d.ttl != "" ==> At(e, Ttl) == d.ttl)
  }

  /** After EnsureDNS exactly one record has the comment, with this name, address and time to live. */
  lemma EnsuredDns(t: Table, d: Routes.Dns, comment: string) returns (k: nat)
    ensures var rows := Routes.EnsureDns(t, d, comment).rows; OnlyAt(rows, comment, k) && DnsShown(rows[k], d)
  {
    Routes.EnsureDnsSettles(t, d, comment);
    k := OnlyAtSelected(Routes.EnsureDns(t, d, comment).rows, comment);
  }

  lemma DnsIsLeftAloneExactly(t: Table, d: Routes.Dns, comment: string)
    ensures Routes.EnsureDns(t, d, comment) == t <==> exists k :: OnlyAt(t.rows, comment, k) && DnsShown(t.rows[k], d)
  {
    if Routes.DnsInPlace(t, d, comment) { var k := OnlyAtSelected(t.rows, comment); }
    if k :| OnlyAt(t.rows, comment, k) && DnsShown(t.rows[k], d) { SelectedOnlyAt(t.rows, comment, k); }
  }
}
