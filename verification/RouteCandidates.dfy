/** The routes wanted for a list of services (internal/controller/cluster_routes.go). */
module RouteCandidates {
  import opened Text
  import Hops
  import OwnedRoutes

  /** A service, with the merged gateways found for it or the error of looking for them. */
  datatype Service = Service(namespace_: string, name: string, kind: string, clusterIP: string, hops: Hops.Result)

  datatype Source = Source(namespace_: string, name: string)

  datatype Result = Ok(candidates: seq<OwnedRoutes.Candidate>) | Err(error: string)

  /** isClusterIPService, with an address that can be routed. */
  predicate Eligible(s: Service) {
    (s.kind == "" || s.kind == "ClusterIP") && s.clusterIP != "" && s.clusterIP != "None"
  }

  function Destination(s: Service): string {
    s.clusterIP + "/32"
  }

  /** The text whose hash names a route. */
  function Key(src: Source, s: Service, gateway: string): string {
    src.namespace_ + "/" + src.name + "/" + Tail(s, gateway)
  }

  function Tail(s: Service, gateway: string): string {
    Join([s.namespace_, s.name, s.clusterIP, "32"], '/') + ['/'] + gateway
  }

  predicate SlashFree(s: Service) {
    '/' !in s.namespace_ && '/' !in s.name && '/' !in s.clusterIP
  }

  lemma TailSplits(s: Service, gateway: string)
    requires SlashFree(s)
    ensures Split(Tail(s, gateway), '/') == [s.namespace_, s.name, s.clusterIP, "32"] + Split(gateway, '/')
  {
    var front := [s.namespace_, s.name, s.clusterIP, "32"];
    SplitConcat(Join(front, '/'), gateway, '/');
    assert '/' !in "32";
    SplitJoin(front, '/');
  }

  /** For one source, the same text means the same service address and the same gateway. */
  lemma KeysIdentify(src: Source, s: Service, gateway: string, s': Service, gateway': string)
    requires SlashFree(s) && SlashFree(s') && Key(src, s, gateway) == Key(src, s', gateway')
    ensures s.namespace_ == s'.namespace_ && s.name == s'.name && s.clusterIP == s'.clusterIP && gateway == gateway'
  {
    var k := |src.namespace_ + "/" + src.name + "/"|;
    assert Key(src, s, gateway)[k..] == Tail(s, gateway) && Key(src, s', gateway')[k..] == Tail(s', gateway');
    TailSplits(s, gateway);
    TailSplits(s', gateway');
    var parts := Split(Tail(s, gateway), '/');
    assert parts[0] == s.namespace_ == s'.namespace_ && parts[1] == s.name == s'.name;
    assert parts[2] == s.clusterIP == s'.clusterIP;
    assert parts[4..] == Split(gateway, '/') == Split(gateway', '/');
    JoinSplit(gateway, '/');
    JoinSplit(gateway', '/');
  }

  /** What the loops want: a hop's own candidate. */
  function CandidateOf(hash: string -> string, src: Source, s: Service, h: Hops.Hop): OwnedRoutes.Candidate {
    OwnedRoutes.Candidate("rt-" + hash(Key(src, s, h.gateway)), Destination(s), h.gateway, OriginLabel(h.origin))
  }

  function OriginLabel(o: Hops.Origin): string {
    match o
    case Override => "override"
    case Nodes => "nodes"
    case Both => "both"
  }

  /** Every candidate is the hop of an eligible service. */
  predicate Comes(c: OwnedRoutes.Candidate, hash: string -> string, src: Source, services: seq<Service>) {
    exists s, h :: s in services && Eligible(s) && s.hops.Ok? && h in s.hops.hops && c == CandidateOf(hash, src, s, h)
  }

  ghost predicate Covered(cs: seq<OwnedRoutes.Candidate>, hash: string -> string, src: Source, s: Service, n: nat)
    requires s.hops.Ok? && n <= |s.hops.hops|
  {
    forall j :: 0 <= j < n ==> OwnedRoutes.Names(cs, CandidateOf(hash, src, s, s.hops.hops[j]).name)
  }

  lemma ListedSnoc(cs: seq<OwnedRoutes.Candidate>, c: OwnedRoutes.Candidate)
    ensures forall name :: OwnedRoutes.Names(cs, name) ==> OwnedRoutes.Names(cs + [c], name)
    ensures OwnedRoutes.Names(cs + [c], c.name)
    ensures OwnedRoutes.DistinctNames(cs) && !OwnedRoutes.Names(cs, c.name) ==> OwnedRoutes.DistinctNames(cs + [c])
  {
    var more := cs + [c];
    assert more[|cs|] == c;
    forall name | OwnedRoutes.Names(cs, name) ensures OwnedRoutes.Names(more, name) {
      var k :| 0 <= k < |cs| && cs[k].name == name;
      assert more[k] == cs[k];
    }
  }

  /** The inner loop: the hops of one service. */
  method AddHops(
    cs: seq<OwnedRoutes.Candidate>, seen: set<string>, hash: string -> string, src: Source, services: seq<Service>,
    s: Service)
    returns (cs': seq<OwnedRoutes.Candidate>, seen': set<string>)
    requires s in services && Eligible(s) && s.hops.Ok? && OwnedRoutes.DistinctNames(cs)
    requires forall name :: name in seen <==> OwnedRoutes.Names(cs, name)
    requires forall c :: c in cs ==> Comes(c, hash, src, services)
    ensures OwnedRoutes.DistinctNames(cs') && forall name :: name in seen' <==> OwnedRoutes.Names(cs', name)
    ensures forall c :: c in cs' ==> Comes(c, hash, src, services)
    ensures seen <= seen' && Covered(cs', hash, src, s, |s.hops.hops|)
  {
    cs', seen' := cs, seen;
    for i := 0 to |s.hops.hops|
      invariant OwnedRoutes.DistinctNames(cs') && forall name :: name in seen' <==> OwnedRoutes.Names(cs', name)
      invariant forall c :: c in cs' ==> Comes(c, hash, src, services)
      invariant seen <= seen' && Covered(cs', hash, src, s, i)
    {
      var hop := s.hops.hops[i];
      assert hop in s.hops.hops;
      var c := CandidateOf(hash, src, s, hop);
      if c.name in seen' {
        continue;
      }
      ListedSnoc(cs', c);
      ListedOnly(cs', c);
      assert Comes(c, hash, src, services);
      seen' := seen' + {c.name};
      cs' := cs' + [c];
    }
  }

  lemma ListedOnly(cs: seq<OwnedRoutes.Candidate>, c: OwnedRoutes.Candidate)
    ensures forall name :: OwnedRoutes.Names(cs + [c], name) ==> OwnedRoutes.Names(cs, name) || name == c.name
  {
    var more := cs + [c];
    forall name | OwnedRoutes.Names(more, name) ensures OwnedRoutes.Names(cs, name) || name == c.name {
      var k :| 0 <= k < |more| && more[k].name == name;
      if k < |cs| { assert cs[k] == more[k]; }
    }
  }

  predicate Wants(s: Service) {
    Eligible(s) && s.hops.Ok?
  }

  /** desiredClusterRouteCandidates. */
  method DesiredCandidates(hash: string -> string, src: Source, services: seq<Service>) returns (r: Result)
    ensures r.Err? <==> exists s :: s in services && Eligible(s) && s.hops.Err?
    ensures r.Ok? ==> OwnedRoutes.DistinctNames(r.candidates)
    ensures r.Ok? ==> forall c :: c in r.candidates ==> Comes(c, hash, src, services)
    ensures r.Ok? ==> forall s :: s in services && Wants(s) ==> Covered(r.candidates, hash, src, s, |s.hops.hops|)
  {
    var cs: seq<OwnedRoutes.Candidate> := [];
    var seen: set<string> := {};
    for i := 0 to |services|
      invariant OwnedRoutes.DistinctNames(cs) && forall name :: name in seen <==> OwnedRoutes.Names(cs, name)
      invariant forall c :: c in cs ==> Comes(c, hash, src, services)
      invariant forall k :: 0 <= k < i ==> !(Eligible(services[k]) && services[k].hops.Err?)
      invariant forall k :: 0 <= k < i && Wants(services[k]) ==>
        Covered(cs, hash, src, services[k], |services[k].hops.hops|)
    {
      var s := services[i];
      assert s in services;
      if !Eligible(s) {
        continue;
      }
      if s.hops.Err? {
        return Err(s.hops.error);
      }
      cs, seen := AddHops(cs, seen, hash, src, services, s);
    }
    r := Ok(cs);
  }

  ghost predicate Injective(hash: string -> string) {
    forall a, b :: hash(a) == hash(b) ==> a == b
  }

  /** With distinct hashes, a listed name is the route of that very service address and gateway. */
  lemma NameIdentifies(
    hash: string -> string, src: Source, services: seq<Service>, cs: seq<OwnedRoutes.Candidate>, s: Service, h: Hops.Hop)
    requires Injective(hash) && SlashFree(s) && forall x :: x in services ==> SlashFree(x)
    requires forall c :: c in cs ==> Comes(c, hash, src, services)
    requires OwnedRoutes.Names(cs, CandidateOf(hash, src, s, h).name)
    ensures exists c :: c in cs && c.destination == Destination(s) && c.gateway == h.gateway
  {
    var name := CandidateOf(hash, src, s, h).name;
    var k :| 0 <= k < |cs| && cs[k].name == name;
    var c := cs[k];
    assert c in cs;
    var s', h' :| s' in services && Eligible(s') && s'.hops.Ok? && h' in s'.hops.hops && c == CandidateOf(hash, src, s', h');
    var a, b := hash(Key(src, s, h.gateway)), hash(Key(src, s', h'.gateway));
    assert ("rt-" + a)[3..] == a && ("rt-" + b)[3..] == b;
    KeysIdentify(src, s, h.gateway, s', h'.gateway);
  }

  /* ---- In terms of the services ---- */

  /** `c` routes the cluster address of `s` through the hop `h`, under the name its hash gives. */
  predicate Routes(c: OwnedRoutes.Candidate, hash: string -> string, src: Source, s: Service, h: Hops.Hop) {
    && (s.kind == "" || s.kind == "ClusterIP") && s.clusterIP != "" && s.clusterIP != "None"
    && s.hops.Ok? && h in s.hops.hops
    && c.destination == s.clusterIP + "/32" && c.gateway == h.gateway
    && c.origin == (if h.origin == Hops.Override then "override" else if h.origin == Hops.Nodes then "nodes" else "both")
    && c.name == "rt-" + hash(src.namespace_ + "/" + src.name + "/" + s.namespace_ + "/" + s.name + "/" + s.clusterIP + "/32/" + h.gateway)
  }

  lemma KeyText(src: Source, s: Service, gateway: string)
    ensures Key(src, s, gateway) ==
      src.namespace_ + "/" + src.name + "/" + s.namespace_ + "/" + s.name + "/" + s.clusterIP + "/32/" + gateway
  {
    var parts := [s.namespace_, s.name, s.clusterIP, "32"];
    assert parts[1..] == [s.name, s.clusterIP, "32"] && parts[1..][1..] == [s.clusterIP, "32"];
    assert parts[1..][1..][1..] == ["32"];
    assert Join(parts[1..][1..], '/') == s.clusterIP + "/32";
    assert Join(parts, '/') == s.namespace_ + "/" + (s.name + "/" + (s.clusterIP + "/32"));
    assert Tail(s, gateway) == s.namespace_ + "/" + s.name + "/" + s.clusterIP + "/32/" + gateway;
  }

  /** Candidates are exactly of this shape. */
  lemma CandidatesRoute(c: OwnedRoutes.Candidate, hash: string -> string, src: Source, services: seq<Service>)
    ensures Comes(c, hash, src, services) <==> exists s, h :: s in services && Routes(c, hash, src, s, h)
  {
    if Comes(c, hash, src, services) {
      var s, h :| s in services && Eligible(s) && s.hops.Ok? && h in s.hops.hops && c == CandidateOf(hash, src, s, h);
      KeyText(src, s, h.gateway);
      assert Routes(c, hash, src, s, h);
    }
    if exists s, h :: s in services && Routes(c, hash, src, s, h) {
      var s, h :| s in services && Routes(c, hash, src, s, h);
      KeyText(src, s, h.gateway);
      assert c == CandidateOf(hash, src, s, h);
    }
  }
}
