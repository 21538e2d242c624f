/** The port forwards wanted for a list of services (internal/controller/router_controller.go). */
module PortForwards {
  import opened Text

  datatype Key = Key(namespace_: string, name: string)

  datatype Port = Port(protocol: string, port: int, nodePort: int)

  /** Looking up the node address of a NodePort service. */
  datatype Lookup = Found(address: string) | Missing(error: string)

  datatype Service = Service(key: Key, kind: string, clusterIP: string, ports: seq<Port>, address: Lookup)

  /** The public-IP annotation as net.ParseIP sees it. */
  datatype PublicIP = Absent | Malformed(text: string) | Parsed(ip: string)

  /** The router reference given or resolved. */
  datatype RouterRef = Resolved(ref: string) | Unresolved(error: string)

  datatype Request = Request(
    publicIP: PublicIP, router: RouterRef, services: seq<Service>,
    selected: map<Key, seq<Port>>, requireSelected: bool)

  /** One forwarded port; a candidate has these fields and a name hashed from them. */
  datatype Entry = Entry(service: Key, protocol: string, port: int, address: string, targetPort: int)

  datatype Result = Ok(candidates: seq<Entry>) | Err(error: string)

  predicate Eligible(q: Request, s: Service) {
    s.clusterIP != "" && s.clusterIP != "None" && (q.requireSelected ==> s.key in q.selected)
  }

  function PortsOf(q: Request, s: Service): seq<Port> {
    if s.key in q.selected then q.selected[s.key] else s.ports
  }

  function ProtocolOf(p: Port): string {
    if Lower(p.protocol) == "" then "tcp" else Lower(p.protocol)
  }

  predicate Supported(p: Port) {
    ProtocolOf(p) == "tcp" || ProtocolOf(p) == "udp"
  }

  predicate IsNodePort(s: Service) {
    s.kind == "NodePort"
  }

  function AddressOf(s: Service): string {
    if IsNodePort(s) && s.address.Found? then s.address.address else ""
  }

  function EntryOf(s: Service, p: Port): Entry {
    Entry(s.key, ProtocolOf(p), p.port, AddressOf(s), if IsNodePort(s) then p.nodePort else p.port)
  }

  function PortEntries(s: Service, ports: seq<Port>): seq<Entry> {
    if ports == [] then []
    else
      var front, last := PortEntries(s, ports[..|ports| - 1]), ports[|ports| - 1];
      if Supported(last) then front + [EntryOf(s, last)] else front
  }

  /** Every listed port of an eligible service with a supported protocol, in order. */
  function Entries(q: Request, services: seq<Service>): seq<Entry> {
    if services == [] then []
    else
      var front, last := Entries(q, services[..|services| - 1]), services[|services| - 1];
      if Eligible(q, last) then front + PortEntries(last, PortsOf(q, last)) else front
  }

  /** Two entries compete for the same traffic. */
  predicate SameMatch(a: Entry, b: Entry) {
    a.protocol == b.protocol && a.port == b.port
  }

  predicate Reachable(q: Request, s: Service) {
    Eligible(q, s) && IsNodePort(s) ==> s.address.Found?
  }

  predicate Sound(es: seq<Entry>) {
    && (forall e :: e in es ==> e.targetPort != 0)
    && (forall a, b :: a in es && b in es && SameMatch(a, b) ==> a == b)
  }

  /** What a request must satisfy to be prepared: every target known and no match with two targets. */
  predicate Consistent(q: Request) {
    q.publicIP.Parsed? ==>
      && q.router.Resolved? && (forall s :: s in q.services ==> Reachable(q, s)) && Sound(Entries(q, q.services))
  }

  predicate DistinctMatches(cs: seq<Entry>) {
    forall i, j :: 0 <= i < j < |cs| ==> !SameMatch(cs[i], cs[j])
  }

  /** Each entry once, whatever else was listed. */
  ghost predicate Candidates(cs: seq<Entry>, es: seq<Entry>) {
    DistinctMatches(cs) && forall e :: e in cs <==> e in es
  }

  /* ---- The loops ---- */

  datatype Match = Match(protocol: string, port: int)

  function MatchOf(e: Entry): Match {
    Match(e.protocol, e.port)
  }

  /** `matches` holds the one target seen for each public match. */
  ghost predicate Tracks(matches: map<Match, Entry>, cs: seq<Entry>, es: seq<Entry>) {
    && Candidates(cs, es) && (forall e :: e in es ==> e.targetPort != 0)
    && (forall e :: e in es ==> MatchOf(e) in matches && matches[MatchOf(e)] == e)
    && (forall m :: m in matches ==> matches[m] in es && MatchOf(matches[m]) == m)
  }

  lemma TracksAgain(matches: map<Match, Entry>, cs: seq<Entry>, es: seq<Entry>, e: Entry)
    requires Tracks(matches, cs, es) && e.targetPort != 0 && MatchOf(e) in matches && matches[MatchOf(e)] == e
    ensures Tracks(matches, cs, es + [e]) && e in cs
  {
    assert e in es;
  }

  lemma TracksNew(matches: map<Match, Entry>, cs: seq<Entry>, es: seq<Entry>, e: Entry)
    requires Tracks(matches, cs, es) && e.targetPort != 0 && MatchOf(e) !in matches
    ensures Tracks(matches[MatchOf(e) := e], cs + [e], es + [e]) && e !in cs
  {
    assert forall i :: 0 <= i < |cs| ==> cs[i] in es;
    assert e !in es;
    assert e in es + [e];
  }

  lemma {:induction false} EntriesGrow(q: Request, services: seq<Service>, i: nat)
    requires i <= |services|
    ensures forall e :: e in Entries(q, services[..i]) ==> e in Entries(q, services)
    decreases |services|
  {
    if i < |services| {
      var front := services[..|services| - 1];
      EntriesGrow(q, front, i);
      assert front[..i] == services[..i];
    } else {
      assert services[..i] == services;
    }
  }

  lemma {:induction false} PortEntriesGrow(s: Service, ports: seq<Port>, j: nat)
    requires j <= |ports|
    ensures forall e :: e in PortEntries(s, ports[..j]) ==> e in PortEntries(s, ports)
    decreases |ports|
  {
    if j < |ports| {
      var front := ports[..|ports| - 1];
      PortEntriesGrow(s, front, j);
      assert front[..j] == ports[..j];
    } else {
      assert ports[..j] == ports;
    }
  }

  /** One more entry: refused for good reason, or tracked. */
  lemma Judge(matches: map<Match, Entry>, cs: seq<Entry>, done: seq<Entry>, e: Entry, whole: seq<Entry>)
    requires Tracks(matches, cs, done) && e in whole && forall x :: x in done ==> x in whole
    ensures e.targetPort == 0 ==> !Sound(whole)
    ensures MatchOf(e) in matches && matches[MatchOf(e)] != e ==> !Sound(whole)
    ensures e.targetPort != 0 && (MatchOf(e) in matches ==> matches[MatchOf(e)] == e) ==>
      Tracks(matches[MatchOf(e) := e], if e in cs then cs else cs + [e], done + [e])
  {
    if MatchOf(e) in matches && matches[MatchOf(e)] != e {
      Clash(whole, matches[MatchOf(e)], e);
    } else if e.targetPort != 0 {
      if MatchOf(e) in matches {
        TracksAgain(matches, cs, done, e);
        assert matches[MatchOf(e) := e] == matches;
      } else {
        TracksNew(matches, cs, done, e);
      }
    }
  }

  /** The ports of one service; `before` lists the entries of the services before it. */
  method AddPorts(s: Service, ports: seq<Port>, matches: map<Match, Entry>, cs: seq<Entry>, ghost before: seq<Entry>)
    returns (error: string, matches': map<Match, Entry>, cs': seq<Entry>)
    requires Tracks(matches, cs, before) && Reached(s)
    ensures error == "" ==> Tracks(matches', cs', before + PortEntries(s, ports))
    ensures error != "" ==> !Sound(before + PortEntries(s, ports))
  {
    error, matches', cs' := "", matches, cs;
    ghost var done, whole := before, before + PortEntries(s, ports);
    assert before + [] == before;
    for j := 0 to |ports|
      invariant done == before + PortEntries(s, ports[..j])
      invariant Tracks(matches', cs', done)
    {
      OnePort(s, ports, j, before);
      var protocol := ProtocolOf(ports[j]);
      if protocol != "tcp" && protocol != "udp" {
        continue;
      }
      var e := EntryOf(s, ports[j]);
      Judge(matches', cs', done, e, whole);
      if e.targetPort == 0 {
        return "no NodePort", matches', cs';
      }
      if MatchOf(e) in matches' && matches'[MatchOf(e)] != e {
        return "ambiguous public match", matches', cs';
      }
      matches' := matches'[MatchOf(e) := e];
      done := done + [e];
      if e in cs' {
        continue;
      }
      cs' := cs' + [e];
    }
    assert ports[..|ports|] == ports;
  }

  predicate Reached(s: Service) {
    IsNodePort(s) ==> s.address.Found?
  }

  lemma Clash(es: seq<Entry>, a: Entry, b: Entry)
    requires a in es && b in es && MatchOf(a) == MatchOf(b) && a != b
    ensures !Sound(es)
  {
    assert SameMatch(a, b);
  }

  lemma OnePort(s: Service, ports: seq<Port>, j: nat, before: seq<Entry>)
    requires j < |ports|
    ensures before + PortEntries(s, ports[..j + 1]) ==
      if Supported(ports[j]) then before + PortEntries(s, ports[..j]) + [EntryOf(s, ports[j])]
      else before + PortEntries(s, ports[..j])
    ensures Supported(ports[j]) ==> EntryOf(s, ports[j]) in before + PortEntries(s, ports)
    ensures forall e :: e in before + PortEntries(s, ports[..j]) ==> e in before + PortEntries(s, ports)
  {
    assert ports[..j + 1][..j] == ports[..j];
    PortEntriesGrow(s, ports, j);
    PortEntriesGrow(s, ports, j + 1);
    if Supported(ports[j]) {
      assert EntryOf(s, ports[j]) in PortEntries(s, ports[..j + 1]);
    }
  }

  lemma UnsoundPrefix(q: Request, i: nat)
    requires q.publicIP.Parsed? && i <= |q.services| && !Sound(Entries(q, q.services[..i]))
    ensures !Consistent(q)
  {
    EntriesGrow(q, q.services, i);
  }

  lemma Unreachable(q: Request, i: nat)
    requires q.publicIP.Parsed? && i < |q.services| && !Reachable(q, q.services[i])
    ensures !Consistent(q)
  {
    assert q.services[i] in q.services;
  }

  lemma AllConsistent(q: Request, matches: map<Match, Entry>, cs: seq<Entry>)
    requires q.publicIP.Parsed? && q.router.Resolved? && Tracks(matches, cs, Entries(q, q.services))
    requires forall k :: 0 <= k < |q.services| ==> Reachable(q, q.services[k])
    ensures Consistent(q)
  {
    var es := Entries(q, q.services);
    forall a, b | a in es && b in es && SameMatch(a, b) ensures a == b {
      assert MatchOf(a) == MatchOf(b);
    }
  }

  /** What the entries become with one more service. */
  function WithService(q: Request, before: seq<Entry>, s: Service): seq<Entry> {
    if Eligible(q, s) then before + PortEntries(s, PortsOf(q, s)) else before
  }

  /** One turn of the loop over the services. */
  method AddService(q: Request, s: Service, matches: map<Match, Entry>, cs: seq<Entry>, ghost before: seq<Entry>)
    returns (r: Result, matches': map<Match, Entry>)
    requires Tracks(matches, cs, before)
    ensures r.Ok? ==> Reachable(q, s) && Tracks(matches', r.candidates, WithService(q, before, s))
    ensures r.Err? ==> !Reachable(q, s) || !Sound(WithService(q, before, s))
  {
    matches' := matches;
    if s.clusterIP == "" || s.clusterIP == "None" {
      return Ok(cs), matches;
    }
    if q.requireSelected && s.key !in q.selected {
      return Ok(cs), matches;
    }
    var ports := if s.key in q.selected then q.selected[s.key] else s.ports;
    if IsNodePort(s) && s.address.Missing? {
      return Err(s.address.error), matches;
    }
    var error, cs';
    error, matches', cs' := AddPorts(s, ports, matches, cs, before);
    r := if error != "" then Err(error) else Ok(cs');
  }

  /**
    preparePortForwardReconcileRequest.  It succeeds exactly on consistent requests, and then its candidates are
    the listed ports, each once, no two with the same protocol and external port.
   */
  method Prepare(q: Request) returns (r: Result)
    ensures r.Ok? <==> Consistent(q) && !q.publicIP.Malformed?
    ensures r.Ok? ==> Candidates(r.candidates, if q.publicIP.Parsed? then Entries(q, q.services) else [])
  {
    if q.publicIP.Absent? {
      return Ok([]);
    }
    if q.publicIP.Malformed? {
      return Err("not an IP address");
    }
    if q.router.Unresolved? {
      return Err(q.router.error);
    }
    var matches: map<Match, Entry> := map[];
    r := Ok([]);
    ghost var done: seq<Entry> := [];
    for i := 0 to |q.services|
      invariant r.Ok? && done == Entries(q, q.services[..i]) && Tracks(matches, r.candidates, done)
      invariant forall k :: 0 <= k < i ==> Reachable(q, q.services[k])
    {
      OneService(q, i);
      r, matches := AddService(q, q.services[i], matches, r.candidates, done);
      done := WithService(q, done, q.services[i]);
      if r.Err? {
        if Reachable(q, q.services[i]) { UnsoundPrefix(q, i + 1); } else { Unreachable(q, i); }
        return;
      }
    }
    assert q.services[..|q.services|] == q.services;
    AllConsistent(q, matches, r.candidates);
  }

  /** A listed port of an eligible service is among the entries. */
  lemma ListedPortsAreEntries(q: Request, i: nat, j: nat)
    requires i < |q.services| && Eligible(q, q.services[i])
    requires j < |PortsOf(q, q.services[i])| && Supported(PortsOf(q, q.services[i])[j])
    ensures EntryOf(q.services[i], PortsOf(q, q.services[i])[j]) in Entries(q, q.services)
  {
    var s, ports := q.services[i], PortsOf(q, q.services[i]);
    PortIsEntry(s, ports, j);
    OneService(q, i);
    EntriesGrow(q, q.services, i + 1);
  }

  lemma PortIsEntry(s: Service, ports: seq<Port>, j: nat)
    requires j < |ports| && Supported(ports[j])
    ensures EntryOf(s, ports[j]) in PortEntries(s, ports)
  {
    var upTo := ports[..j + 1];
    assert upTo[..|upTo| - 1] == ports[..j] && upTo[|upTo| - 1] == ports[j];
    PortEntriesGrow(s, ports, j + 1);
  }

  lemma OneService(q: Request, i: nat)
    requires i < |q.services|
    ensures Entries(q, q.services[..i + 1]) == WithService(q, Entries(q, q.services[..i]), q.services[i])
  {
    var upTo := q.services[..i + 1];
    assert upTo[..|upTo| - 1] == q.services[..i] && upTo[|upTo| - 1] == q.services[i];
  }

  /* ---- In terms of the services ---- */

  /** `e` is what port `p` of service `s` is forwarded to. */
  ghost predicate Forwards(q: Request, s: Service, p: Port, e: Entry) {
    && s.clusterIP != "" && s.clusterIP != "None" && (q.requireSelected ==> s.key in q.selected)
    && p in (if s.key in q.selected then q.selected[s.key] else s.ports)
    && e.service == s.key && e.port == p.port
    && (e.protocol == "tcp" || e.protocol == "udp")
    && (if p.protocol == "" then e.protocol == "tcp" else e.protocol == Lower(p.protocol))
    && if s.kind == "NodePort" then e.targetPort == p.nodePort && (s.address.Found? ==> e.address == s.address.address)
       else e.targetPort == p.port && e.address == ""
  }

  lemma {:induction false} EntryComes(q: Request, s: Service, ports: seq<Port>, e: Entry)
    requires e in PortEntries(s, ports)
    ensures exists p :: p in ports && Supported(p) && e == EntryOf(s, p)
    decreases |ports|
  {
    var front, last := ports[..|ports| - 1], ports[|ports| - 1];
    if e in PortEntries(s, front) {
      EntryComes(q, s, front, e);
      var p :| p in front && Supported(p) && e == EntryOf(s, p);
      assert p in ports;
    } else {
      assert last in ports;
    }
  }

  lemma {:induction false} ServiceComes(q: Request, services: seq<Service>, e: Entry)
    requires e in Entries(q, services)
    ensures exists s, p :: s in services && Eligible(q, s) && p in PortsOf(q, s) && Supported(p) && e == EntryOf(s, p)
    decreases |services|
  {
    var front, last := services[..|services| - 1], services[|services| - 1];
    if e in Entries(q, front) {
      ServiceComes(q, front, e);
      var s, p :| s in front && Eligible(q, s) && p in PortsOf(q, s) && Supported(p) && e == EntryOf(s, p);
      assert s in services;
    } else {
      EntryComes(q, last, PortsOf(q, last), e);
      assert last in services;
    }
  }

  lemma PortForwardsIts(q: Request, s: Service, p: Port, e: Entry)
    requires s.kind == "NodePort" && s.address.Missing? ==> e.address == ""
    ensures Forwards(q, s, p, e) <==> Eligible(q, s) && p in PortsOf(q, s) && Supported(p) && e == EntryOf(s, p)
  {
    if p.protocol != "" { assert |Lower(p.protocol)| == |p.protocol|; }
  }

  /** Some listed port of some service is forwarded as `e`. */
  ghost predicate Forwarded(q: Request, e: Entry) {
    exists s, p :: s in q.services && Forwards(q, s, p, e)
  }

  /** When every NodePort service has its node, the entries are exactly the forwarded ports. */
  lemma EntriesExactly(q: Request, e: Entry)
    requires forall s :: s in q.services && Eligible(q, s) && s.kind == "NodePort" ==> s.address.Found?
    ensures e in Entries(q, q.services) <==> Forwarded(q, e)
  {
    if e in Entries(q, q.services) {
      ServiceComes(q, q.services, e);
      var s, p :| s in q.services && Eligible(q, s) && p in PortsOf(q, s) && Supported(p) && e == EntryOf(s, p);
      PortForwardsIts(q, s, p, e);
      assert Forwards(q, s, p, e);
    }
    if Forwarded(q, e) {
      var s, p :| s in q.services && Forwards(q, s, p, e);
      PortForwardsIts(q, s, p, e);
      var i :| 0 <= i < |q.services| && q.services[i] == s;
      var j :| 0 <= j < |PortsOf(q, s)| && PortsOf(q, s)[j] == p;
      ListedPortsAreEntries(q, i, j);
    }
  }

  /** The result of a prepared request, in these terms. */
  lemma PreparedExactly(q: Request, cs: seq<Entry>, e: Entry)
    requires q.publicIP.Parsed? && Consistent(q) && Candidates(cs, Entries(q, q.services))
    ensures e in cs <==> Forwarded(q, e)
  {
    EntriesExactly(q, e);
  }
}
