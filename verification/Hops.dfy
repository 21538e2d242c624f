/**
  The gateways of a cluster route (internal/controller/cluster_routes.go): one merged list serves all
  endpoints of a router, and an origin label says which endpoints take which gateway.
 */
module Hops {
  datatype Origin = Override | Nodes | Both

  datatype Hop = Hop(gateway: string, origin: Origin)

  /** An endpoint, with its own route gateway or "". */
  datatype Endpoint = Endpoint(name: string, routeGateway: string)

  datatype Router = Router(endpoints: seq<Endpoint>, routeGateway: string)

  /** What reading the cluster's nodes gave. */
  datatype Loaded = Loaded(addresses: seq<string>) | Failed(error: string)

  datatype Result = Ok(hops: seq<Hop>) | Err(error: string)

  /** endpointRouteGateway. */
  function Wanted(e: Endpoint, r: Router): string {
    if e.routeGateway != "" then e.routeGateway else r.routeGateway
  }

  /** mergeClusterRouteOrigin. */
  function Merge(existing: Origin, added: Origin): Origin {
    if existing == added then added else Both
  }

  /** clusterRouteAppliesToEndpoint. */
  predicate Applies(h: Hop, e: Endpoint, r: Router) {
    var want := Wanted(e, r);
    if want != "" then h.gateway == want else h.origin == Nodes || h.origin == Both
  }

  function Named(values: seq<string>): set<string> {
    set v | v in values && v != ""
  }

  function Overrides(r: Router): set<string> {
    set e | e in r.endpoints && Wanted(e, r) != "" :: Wanted(e, r)
  }

  /** Some endpoint takes the node addresses, or there is no endpoint at all. */
  predicate NeedsNodes(r: Router) {
    r.endpoints == [] || exists e :: e in r.endpoints && Wanted(e, r) == ""
  }

  function OriginOf(gateway: string, overrides: set<string>, nodes: set<string>): Origin {
    if gateway in overrides && gateway in nodes then Both else if gateway in overrides then Override else Nodes
  }

  predicate Distinct(hops: seq<Hop>) {
    forall i, j :: 0 <= i < j < |hops| ==> hops[i].gateway != hops[j].gateway
  }

  function Gateways(hops: seq<Hop>): set<string> {
    set h | h in hops :: h.gateway
  }

  /** The list merges the overrides and the node addresses, each once and with its origin. */
  predicate Merged(hops: seq<Hop>, overrides: set<string>, nodes: set<string>) {
    && Distinct(hops) && Gateways(hops) == overrides + nodes
    && forall h :: h in hops ==> h.origin == OriginOf(h.gateway, overrides, nodes)
  }

  function NodeSet(r: Router, nodes: Loaded): set<string> {
    if NeedsNodes(r) && nodes.Loaded? then Named(nodes.addresses) else {}
  }

  /** What an endpoint would be given if it were the router's only one. */
  function Alone(e: Endpoint, r: Router, nodes: set<string>): set<string> {
    if Wanted(e, r) != "" then {Wanted(e, r)} else nodes
  }

  function Taken(hops: seq<Hop>, e: Endpoint, r: Router): set<string> {
    set h | h in hops && Applies(h, e, r) :: h.gateway
  }

  /** Filtering the merged list gives every endpoint exactly the gateways it would have had alone. */
  lemma EndpointsGetTheirOwn(r: Router, nodes: Loaded, hops: seq<Hop>, e: Endpoint)
    requires Merged(hops, Overrides(r), NodeSet(r, nodes)) && e in r.endpoints
    ensures Taken(hops, e, r) == Alone(e, r, NodeSet(r, nodes))
  {
    var overrides, names := Overrides(r), NodeSet(r, nodes);
    var want := Wanted(e, r);
    forall g ensures g in Taken(hops, e, r) <==> g in Alone(e, r, names) {
      if g in Taken(hops, e, r) {
        var h :| h in hops && Applies(h, e, r) && h.gateway == g;
        assert g in Gateways(hops);
        assert h.origin == OriginOf(g, overrides, names);
      }
      if g in Alone(e, r, names) {
        assert want != "" ==> want in overrides;
        assert g in Gateways(hops);
        var h :| h in hops && h.gateway == g;
        assert h.origin == OriginOf(g, overrides, names);
        assert Applies(h, e, r);
      }
    }
  }

  /* ---- The loops ---- */

  /** The gateways seen so far, and the list of them. */
  predicate Tracks(seen: map<string, Origin>, hops: seq<Hop>, overrides: set<string>, nodes: set<string>) {
    && seen.Keys == overrides + nodes && Distinct(hops) && Gateways(hops) == seen.Keys
    && forall g :: g in seen ==> seen[g] == OriginOf(g, overrides, nodes)
  }

  lemma GatewaysSnoc(hops: seq<Hop>, h: Hop)
    requires Distinct(hops) && h.gateway !in Gateways(hops)
    ensures Distinct(hops + [h]) && Gateways(hops + [h]) == Gateways(hops) + {h.gateway}
  {
    assert forall i :: 0 <= i < |hops| ==> hops[i] in hops;
    assert forall i :: 0 <= i < |hops| ==> hops[i].gateway in Gateways(hops);
    assert h in hops + [h];
    assert forall x :: x in hops ==> x in hops + [h];
  }

  function AddOverrides(overrides: set<string>, origin: Origin, values: set<string>): set<string> {
    if origin == Override then overrides + values else overrides
  }

  function AddNodes(nodes: set<string>, origin: Origin, values: set<string>): set<string> {
    if origin == Nodes then nodes + values else nodes
  }

  lemma TrackOld(seen: map<string, Origin>, hops: seq<Hop>, o: set<string>, n: set<string>, value: string, origin: Origin)
    requires Tracks(seen, hops, o, n) && value in seen && origin != Both
    ensures Tracks(seen[value := Merge(seen[value], origin)], hops,
      AddOverrides(o, origin, {value}), AddNodes(n, origin, {value}))
  {
  }

  lemma TrackNew(seen: map<string, Origin>, hops: seq<Hop>, o: set<string>, n: set<string>, value: string, origin: Origin)
    requires Tracks(seen, hops, o, n) && value !in seen && origin != Both
    ensures Tracks(seen[value := origin], hops + [Hop(value, origin)],
      AddOverrides(o, origin, {value}), AddNodes(n, origin, {value}))
  {
    GatewaysSnoc(hops, Hop(value, origin));
  }

  lemma NamedSnoc(values: seq<string>, i: nat, o: set<string>, n: set<string>, origin: Origin)
    requires i < |values|
    ensures var old_, new_ := Named(values[..i]), Named(values[..i + 1]);
      if values[i] == "" then new_ == old_
      else
        && AddOverrides(AddOverrides(o, origin, old_), origin, {values[i]}) == AddOverrides(o, origin, new_)
        && AddNodes(AddNodes(n, origin, old_), origin, {values[i]}) == AddNodes(n, origin, new_)
  {
    assert values[..i + 1] == values[..i] + [values[i]];
    var old_, new_ := Named(values[..i]), Named(values[..i + 1]);
    assert values[i] != "" ==> new_ == old_ + {values[i]};
    assert o + old_ + {values[i]} == o + (old_ + {values[i]});
    assert n + old_ + {values[i]} == n + (old_ + {values[i]});
  }

  /** The `add` closure. */
  method Collect(
    seen: map<string, Origin>, hops: seq<Hop>, values: seq<string>, origin: Origin,
    ghost overrides: set<string>, ghost nodes: set<string>)
    returns (seen': map<string, Origin>, hops': seq<Hop>)
    requires Tracks(seen, hops, overrides, nodes) && origin != Both
    ensures Tracks(seen', hops', AddOverrides(overrides, origin, Named(values)), AddNodes(nodes, origin, Named(values)))
  {
    seen', hops' := seen, hops;
    ghost var o, n := overrides, nodes;
    for i := 0 to |values|
      invariant o == AddOverrides(overrides, origin, Named(values[..i])) && n == AddNodes(nodes, origin, Named(values[..i]))
      invariant Tracks(seen', hops', o, n)
    {
      var value := values[i];
      NamedSnoc(values, i, overrides, nodes, origin);
      if value == "" {
        continue;
      }
      if value in seen' {
        TrackOld(seen', hops', o, n, value, origin);
        seen' := seen'[value := Merge(seen'[value], origin)];
      } else {
        TrackNew(seen', hops', o, n, value, origin);
        seen' := seen'[value := origin];
        hops' := hops' + [Hop(value, origin)];
      }
      o, n := AddOverrides(o, origin, {value}), AddNodes(n, origin, {value});
    }
    assert values[..|values|] == values;
  }

  /** The overrides of the first `i` endpoints. */
  function OverridesUpTo(r: Router, i: nat): set<string>
    requires i <= |r.endpoints|
  {
    set k | 0 <= k < i && Wanted(r.endpoints[k], r) != "" :: Wanted(r.endpoints[k], r)
  }

  lemma AllOverrides(r: Router)
    ensures OverridesUpTo(r, |r.endpoints|) == Overrides(r)
  {
    forall g | g in Overrides(r) ensures g in OverridesUpTo(r, |r.endpoints|) {
      var e :| e in r.endpoints && Wanted(e, r) != "" && Wanted(e, r) == g;
      var k :| 0 <= k < |r.endpoints| && r.endpoints[k] == e;
      assert Wanted(r.endpoints[k], r) == g;
    }
  }

  /** The node addresses the first `i` endpoints have brought in. */
  function NodesUpTo(r: Router, nodes: Loaded, i: nat): set<string>
    requires i <= |r.endpoints|
  {
    if nodes.Loaded? && exists k :: 0 <= k < i && Wanted(r.endpoints[k], r) == "" then Named(nodes.addresses) else {}
  }

  lemma OneMoreOverride(r: Router, nodes: Loaded, i: nat)
    requires i < |r.endpoints| && Wanted(r.endpoints[i], r) != ""
    ensures OverridesUpTo(r, i + 1) == AddOverrides(OverridesUpTo(r, i), Override, Named([Wanted(r.endpoints[i], r)]))
    ensures NodesUpTo(r, nodes, i + 1) == AddNodes(NodesUpTo(r, nodes, i), Override, {})
  {
    assert Named([Wanted(r.endpoints[i], r)]) == {Wanted(r.endpoints[i], r)};
  }

  lemma OneMoreOnNodes(r: Router, nodes: Loaded, i: nat)
    requires i < |r.endpoints| && Wanted(r.endpoints[i], r) == "" && nodes.Loaded?
    ensures OverridesUpTo(r, i + 1) == OverridesUpTo(r, i)
    ensures NodesUpTo(r, nodes, i + 1) == AddNodes(NodesUpTo(r, nodes, i), Nodes, Named(nodes.addresses))
  {
    assert Named(nodes.addresses) + Named(nodes.addresses) == Named(nodes.addresses);
    assert {} + Named(nodes.addresses) == Named(nodes.addresses);
  }

  lemma AllNodes(r: Router, nodes: Loaded)
    ensures NodesUpTo(r, nodes, |r.endpoints|) == if r.endpoints == [] then {} else NodeSet(r, nodes)
  {
    if exists e :: e in r.endpoints && Wanted(e, r) == "" {
      var e :| e in r.endpoints && Wanted(e, r) == "";
      var k :| 0 <= k < |r.endpoints| && r.endpoints[k] == e;
      assert Wanted(r.endpoints[k], r) == "";
    }
  }

  /** desiredClusterRouteHops; the nodes are read at most once, so `nodes` is what that one read gives. */
  method DesiredHops(r: Router, nodes: Loaded) returns (result: Result)
    ensures result.Err? <==> NeedsNodes(r) && nodes.Failed?
    ensures result.Err? ==> result.error == nodes.error
    ensures result.Ok? ==> Merged(result.hops, Overrides(r), NodeSet(r, nodes))
  {
    var seen: map<string, Origin> := map[];
    var hops: seq<Hop> := [];
    for i := 0 to |r.endpoints|
      invariant nodes.Failed? ==> forall k :: 0 <= k < i ==> Wanted(r.endpoints[k], r) != ""
      invariant Tracks(seen, hops, OverridesUpTo(r, i), NodesUpTo(r, nodes, i))
    {
      var want := Wanted(r.endpoints[i], r);
      if want != "" {
        OneMoreOverride(r, nodes, i);
        seen, hops := Collect(seen, hops, [want], Override, OverridesUpTo(r, i), NodesUpTo(r, nodes, i));
        continue;
      }
      assert r.endpoints[i] in r.endpoints;
      if nodes.Failed? {
        return Err(nodes.error);
      }
      OneMoreOnNodes(r, nodes, i);
      seen, hops := Collect(seen, hops, nodes.addresses, Nodes, OverridesUpTo(r, i), NodesUpTo(r, nodes, i));
    }
    AllOverrides(r);
    AllNodes(r, nodes);
    ghost var names := NodesUpTo(r, nodes, |r.endpoints|);
    if |hops| == 0 {
      NoHopsNeedNodes(r, seen, hops, names);
      if nodes.Failed? {
        return Err(nodes.error);
      }
      seen, hops := Collect(seen, hops, nodes.addresses, Nodes, Overrides(r), names);
      names := AddNodes(names, Nodes, Named(nodes.addresses));
    } else {
      NonEmptyHops(r, seen, hops, names);
      assert r.endpoints != [];
    }
    assert names == NodeSet(r, nodes);
    hops := Relabel(seen, hops, Overrides(r), names);
    result := Ok(hops);
  }

  lemma NoHopsNeedNodes(r: Router, seen: map<string, Origin>, hops: seq<Hop>, names: set<string>)
    requires Tracks(seen, hops, Overrides(r), names) && hops == []
    ensures NeedsNodes(r)
  {
    assert Gateways(hops) == {};
    if r.endpoints != [] {
      var e := r.endpoints[0];
      assert e in r.endpoints;
      assert Wanted(e, r) != "" ==> Wanted(e, r) in Overrides(r);
    }
  }

  lemma NonEmptyHops(r: Router, seen: map<string, Origin>, hops: seq<Hop>, names: set<string>)
    requires Tracks(seen, hops, Overrides(r), names) && hops != [] && (r.endpoints == [] ==> names == {})
    ensures r.endpoints != []
  {
    assert hops[0] in hops;
    assert hops[0].gateway in Gateways(hops);
  }

  /** The last loop: every hop gets the origin its gateway ended up with. */
  method Relabel(
    seen: map<string, Origin>, hops: seq<Hop>, ghost overrides: set<string>, ghost nodes: set<string>)
    returns (labelled: seq<Hop>)
    requires Tracks(seen, hops, overrides, nodes)
    ensures Merged(labelled, overrides, nodes)
  {
    labelled := hops;
    for i := 0 to |hops|
      invariant |labelled| == |hops|
      invariant forall k :: 0 <= k < |hops| ==> labelled[k].gateway == hops[k].gateway
      invariant forall k :: 0 <= k < i ==> labelled[k].origin == OriginOf(hops[k].gateway, overrides, nodes)
    {
      assert labelled[i].gateway == hops[i].gateway && hops[i] in hops;
      assert hops[i].gateway in Gateways(hops);
      labelled := labelled[i := Hop(labelled[i].gateway, seen[labelled[i].gateway])];
    }
    SameGateways(hops, labelled);
  }

  lemma SameGateways(a: seq<Hop>, b: seq<Hop>)
    requires |a| == |b| && forall k :: 0 <= k < |a| ==> a[k].gateway == b[k].gateway
    ensures Gateways(a) == Gateways(b)
  {
    forall g ensures g in Gateways(a) <==> g in Gateways(b) {
      if g in Gateways(a) {
        var k :| 0 <= k < |a| && a[k].gateway == g;
        assert b[k] in b;
      }
      if g in Gateways(b) {
        var k :| 0 <= k < |b| && b[k].gateway == g;
        assert a[k] in a;
      }
    }
  }

  /* ---- In terms of the configuration ---- */

  /** `e` is routed through `g`: its own gateway if it has one, else the router's, else every named node address. */
  ghost predicate GoesThrough(e: Endpoint, r: Router, nodes: Loaded, g: string) {
    if e.routeGateway != "" then g == e.routeGateway
    else if r.routeGateway != "" then g == r.routeGateway
    else nodes.Loaded? && g in nodes.addresses && g != ""
  }

  /** An endpoint takes exactly the gateways its configuration gives it. */
  lemma EndpointGateways(r: Router, nodes: Loaded, hops: seq<Hop>, e: Endpoint)
    requires Merged(hops, Overrides(r), NodeSet(r, nodes)) && e in r.endpoints
    ensures forall g :: g in Taken(hops, e, r) <==> GoesThrough(e, r, nodes, g)
  {
    EndpointsGetTheirOwn(r, nodes, hops, e);
  }

  /** Some endpoint names the gateway, or leaves it to the router that names it. */
  ghost predicate Configured(r: Router, g: string) {
    g != "" && exists e :: e in r.endpoints && g == if e.routeGateway != "" then e.routeGateway else r.routeGateway
  }

  ghost predicate Unconfigured(r: Router) {
    r.endpoints == [] || (r.routeGateway == "" && exists e :: e in r.endpoints && e.routeGateway == "")
  }

  /** The nodes are read exactly if no gateway is configured for some endpoint, or there is none. */
  lemma NodesAreNeeded(r: Router)
    ensures NeedsNodes(r) <==> Unconfigured(r)
  {
    if Unconfigured(r) && r.endpoints != [] {
      var e :| e in r.endpoints && e.routeGateway == "";
      assert Wanted(e, r) == "";
    }
  }

  /** A listed gateway is a configured one or a needed node address, and its origin says which. */
  lemma OriginsSay(r: Router, nodes: Loaded, hops: seq<Hop>, h: Hop)
    requires Merged(hops, Overrides(r), NodeSet(r, nodes)) && h in hops
    ensures h.origin == Override || h.origin == Both <==> Configured(r, h.gateway)
    ensures h.origin == Nodes || h.origin == Both <==>
      Unconfigured(r) && nodes.Loaded? && h.gateway in nodes.addresses && h.gateway != ""
  {
    NodesAreNeeded(r);
    assert h.gateway in Gateways(hops);
    if Configured(r, h.gateway) {
      var e :| e in r.endpoints && h.gateway == if e.routeGateway != "" then e.routeGateway else r.routeGateway;
      assert Wanted(e, r) == h.gateway;
    }
  }
}
